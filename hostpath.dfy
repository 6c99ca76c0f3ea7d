/**
 * The host-path log-volume rewriter (checkAndRewriteHostPath and
 * addPhysicalLogPathToVolumesAndCorrectContainers).
 *
 * A hostPath volume at the reserved pod-logging path whose name does not carry
 * the physical suffix is repointed at the tenant's log directory, and a second
 * volume, named with the suffix and still at the reserved path, is appended
 * together with a mount of it in every regular container that mounts the
 * original volume. A volume at the generic log path is repointed at the
 * tenant's log root. The closed form of the whole pass is RewriteHostPaths;
 * the methods follow the Go loops and are proved to compute it.
 */
module HostPathRewriter {
  import opened Wrappers
  import opened PodTypes

  /** strings.HasSuffix */
  predicate HasSuffix(s: string, suffix: string) {
    |suffix| <= |s| && s[|s| - |suffix|..] == suffix
  }

  /** The name of the physical twin of a volume: fmt.Sprintf("%s-%s", name, suffix). */
  function PhysicalName(k: Consts, name: string): (r: string)
    ensures HasSuffix(r, k.physicalLogVolumeNameSuffix)
    ensures |r| > |name| && r[..|name|] == name
  {
    var r := name + "-" + k.physicalLogVolumeNameSuffix;
    assert r[|r| - |k.physicalLogVolumeNameSuffix|..] == k.physicalLogVolumeNameSuffix;
    r
  }

  /** The guard of lines 241-244: a pod-logging hostPath volume not yet rewritten. */
  predicate Triggers(k: Consts, v: Volume) {
    && v.hostPath.Some?
    && v.hostPath.value.path == k.podLoggingHostpathPath
    && !HasSuffix(v.name, k.physicalLogVolumeNameSuffix)
  }

  /**
   * The path a hostPath volume ends up with. Line 260 reads the path through the
   * HostPath pointer the copy `volume` shares with the pod, so it sees the value
   * written at line 254.
   */
  function RewrittenPath(k: Consts, virtualLogsPath: string, v: Volume): string
    requires v.hostPath.Some?
  {
    var path := if Triggers(k, v) then virtualLogsPath + "/pods" else v.hostPath.value.path;
    if path == k.logHostpathPath then virtualLogsPath else path
  }

  /** A volume of the original list after the pass: only a hostPath's path can change. */
  function RewrittenVolume(k: Consts, virtualLogsPath: string, v: Volume): Volume {
    if v.hostPath.None? then v
    else v.(hostPath := Some(v.hostPath.value.(path := RewrittenPath(k, virtualLogsPath, v))))
  }

  /** The volume appended for a triggering volume (lines 272-280). */
  function PhysicalVolume(k: Consts, name: string, hostPathType: Option<string>): Volume {
    Volume(PhysicalName(k, name), Some(HostPathVolumeSource(k.podLoggingHostpathPath, hostPathType)))
  }

  /** The mount appended for an existing mount of the original volume (lines 292-294). */
  function PhysicalMount(k: Consts, name: string, m: VolumeMount): VolumeMount {
    m.(name := PhysicalName(k, name), mountPath := k.physicalLogVolumeMountPath)
  }

  /** The original volumes, each rewritten in place. */
  function RewrittenVolumes(k: Consts, virtualLogsPath: string, vs: seq<Volume>): seq<Volume> {
    seq(|vs|, j requires 0 <= j < |vs| => RewrittenVolume(k, virtualLogsPath, vs[j]))
  }

  /** The volumes appended by a pass over `vs`: one per triggering volume, in order. */
  function PhysicalVolumes(k: Consts, vs: seq<Volume>): (r: seq<Volume>)
    ensures |r| <= |vs|
    ensures forall v :: v in r ==> HasSuffix(v.name, k.physicalLogVolumeNameSuffix)
    ensures forall v :: v in r ==> v.hostPath.Some? && v.hostPath.value.path == k.podLoggingHostpathPath
  {
    if vs == [] then []
    else
      var last := vs[|vs| - 1];
      PhysicalVolumes(k, vs[..|vs| - 1])
        + (if Triggers(k, last) then [PhysicalVolume(k, last.name, last.hostPath.value.hostPathType)] else [])
  }

  /** The mounts appended to a container for volume `name`: one per mount of it, in order. */
  function PhysicalMounts(k: Consts, name: string, ms: seq<VolumeMount>): (r: seq<VolumeMount>)
    ensures |r| <= |ms|
    ensures forall m :: m in r ==> m.name == PhysicalName(k, name) && m.mountPath == k.physicalLogVolumeMountPath
  {
    if ms == [] then []
    else
      var last := ms[|ms| - 1];
      PhysicalMounts(k, name, ms[..|ms| - 1]) + (if last.name == name then [PhysicalMount(k, name, last)] else [])
  }

  /** The mounts a pass over `vs` appends to a container whose original mounts are `ms`. */
  function AddedMounts(k: Consts, vs: seq<Volume>, ms: seq<VolumeMount>): (r: seq<VolumeMount>)
    ensures forall m :: m in r ==> HasSuffix(m.name, k.physicalLogVolumeNameSuffix)
    ensures forall m :: m in r ==> m.mountPath == k.physicalLogVolumeMountPath
  {
    if vs == [] then []
    else
      var last := vs[|vs| - 1];
      AddedMounts(k, vs[..|vs| - 1], ms) + (if Triggers(k, last) then PhysicalMounts(k, last.name, ms) else [])
  }

  /** A regular container after a pass over `vs`: its original mounts, then the appended ones. */
  function CorrectedContainer(k: Consts, vs: seq<Volume>, c: Container): Container {
    c.(volumeMounts := c.volumeMounts + AddedMounts(k, vs, c.volumeMounts))
  }

  function CorrectedContainers(k: Consts, vs: seq<Volume>, cs: seq<Container>): seq<Container> {
    seq(|cs|, j requires 0 <= j < |cs| => CorrectedContainer(k, vs, cs[j]))
  }

  /**
   * The result of checkAndRewriteHostPath on a pod spec: the original volumes rewritten
   * in place followed by the appended physical volumes, and every regular container
   * with its appended mounts. Nothing else changes.
   */
  function RewriteHostPaths(k: Consts, virtualLogsPath: string, spec: PodSpec): PodSpec {
    spec.(volumes := RewrittenVolumes(k, virtualLogsPath, spec.volumes) + PhysicalVolumes(k, spec.volumes),
          containers := CorrectedContainers(k, spec.volumes, spec.containers))
  }

  /** The state after the loop of line 240 has visited the first `i` original volumes. */
  ghost function RewriteUpTo(k: Consts, virtualLogsPath: string, spec: PodSpec, i: nat): PodSpec
    requires i <= |spec.volumes|
  {
    var vs := spec.volumes;
    spec.(volumes := RewrittenVolumes(k, virtualLogsPath, vs[..i]) + vs[i..] + PhysicalVolumes(k, vs[..i]),
          containers := CorrectedContainers(k, vs[..i], spec.containers))
  }

  /** The result of addPhysicalLogPathToVolumesAndCorrectContainers. */
  function WithPhysicalLogVolume(k: Consts, name: string, hostPathType: Option<string>, spec: PodSpec): PodSpec {
    spec.(volumes := spec.volumes + [PhysicalVolume(k, name, hostPathType)],
          containers := seq(|spec.containers|, j requires 0 <= j < |spec.containers| =>
                              WithPhysicalMounts(k, name, spec.containers[j])))
  }

  function WithPhysicalMounts(k: Consts, name: string, c: Container): Container {
    c.(volumeMounts := c.volumeMounts + PhysicalMounts(k, name, c.volumeMounts))
  }

  /** pPod.Spec.Volumes[i].HostPath.Path = path */
  function SetHostPath(spec: PodSpec, i: nat, path: string): PodSpec
    requires i < |spec.volumes| && spec.volumes[i].hostPath.Some?
  {
    var v := spec.volumes[i];
    spec.(volumes := spec.volumes[i := v.(hostPath := Some(v.hostPath.value.(path := path)))])
  }

  /** pPod.Spec.Containers[i].VolumeMounts = append(pPod.Spec.Containers[i].VolumeMounts, m) */
  function AppendMount(spec: PodSpec, i: nat, m: VolumeMount): PodSpec
    requires i < |spec.containers|
  {
    var c := spec.containers[i];
    spec.(containers := spec.containers[i := c.(volumeMounts := c.volumeMounts + [m])])
  }

  // ---------------------------------------------------------------------------
  // The two Go functions, loop for loop.
  // ---------------------------------------------------------------------------

  /** addPhysicalLogPathToVolumesAndCorrectContainers (lines 270-303). */
  method AddPhysicalLogPathToVolumesAndCorrectContainers(k: Consts, volName: string,
                                                         hostPathType: Option<string>, spec: PodSpec)
    returns (r: PodSpec)
    ensures r == WithPhysicalLogVolume(k, volName, hostPathType, spec)
  {
    r := spec.(volumes := spec.volumes + [PhysicalVolume(k, volName, hostPathType)]);
    var i := 0;
    while i < |r.containers|
      invariant i <= |r.containers| == |spec.containers|
      invariant r == spec.(volumes := r.volumes, containers := r.containers)
      invariant r.volumes == spec.volumes + [PhysicalVolume(k, volName, hostPathType)]
      invariant forall j :: 0 <= j < i ==> r.containers[j] == WithPhysicalMounts(k, volName, spec.containers[j])
      invariant forall j :: i <= j < |r.containers| ==> r.containers[j] == spec.containers[j]
    {
      // `container` is a copy: the inner range visits the original mounts only
      var container := r.containers[i];
      var m := 0;
      while m < |container.volumeMounts|
        invariant m <= |container.volumeMounts|
        invariant |r.containers| == |spec.containers|
        invariant r == spec.(volumes := r.volumes, containers := r.containers)
        invariant r.volumes == spec.volumes + [PhysicalVolume(k, volName, hostPathType)]
        invariant forall j :: 0 <= j < i ==> r.containers[j] == WithPhysicalMounts(k, volName, spec.containers[j])
        invariant forall j :: i < j < |r.containers| ==> r.containers[j] == spec.containers[j]
        invariant r.containers[i] == container.(volumeMounts := container.volumeMounts
                                        + PhysicalMounts(k, volName, container.volumeMounts[..m]))
      {
        var volumeMount := container.volumeMounts[m];
        if volumeMount.name == volName {
          var pVolMount := volumeMount.(name := PhysicalName(k, volName), mountPath := k.physicalLogVolumeMountPath);
          r := AppendMount(r, i, pVolMount);
        }
        assert container.volumeMounts[..m + 1][..m] == container.volumeMounts[..m];
        m := m + 1;
      }
      assert container.volumeMounts[..m] == container.volumeMounts;
      i := i + 1;
    }
  }

  /** checkAndRewriteHostPath (lines 236-268), on the pod's spec. */
  method CheckAndRewriteHostPath(k: Consts, virtualLogsPath: string, spec: PodSpec) returns (r: PodSpec)
    ensures r == RewriteHostPaths(k, virtualLogsPath, spec)
  {
    r := spec;
    var vs := spec.volumes;  // the range expression is evaluated once
    var i := 0;
    RewriteUpToStart(k, virtualLogsPath, spec);
    while i < |vs|
      invariant i <= |vs|
      invariant r == RewriteUpTo(k, virtualLogsPath, spec, i)
    {
      var volume := vs[i];
      ghost var before := r;
      if volume.hostPath.Some? {
        var path := volume.hostPath.value.path;
        if path == k.podLoggingHostpathPath && !HasSuffix(volume.name, k.physicalLogVolumeNameSuffix) {
          r := SetHostPath(r, i, virtualLogsPath + "/pods");
          // `volume` is a copy, but volume.HostPath is the pointer just written through
          path := virtualLogsPath + "/pods";
          r := AddPhysicalLogPathToVolumesAndCorrectContainers(k, volume.name, volume.hostPath.value.hostPathType, r);
        }
        if path == k.logHostpathPath {
          r := SetHostPath(r, i, virtualLogsPath);
        }
      }
      Step(k, virtualLogsPath, spec, i, before, r);
      i := i + 1;
    }
    RewriteUpToEnd(k, virtualLogsPath, spec);
  }

  // ---------------------------------------------------------------------------
  // Lemmas behind the loop invariant of CheckAndRewriteHostPath.
  // ---------------------------------------------------------------------------

  /** Scanning a concatenation of mount lists scans each part in turn. */
  lemma {:induction false} PhysicalMountsAppend(k: Consts, name: string, a: seq<VolumeMount>, b: seq<VolumeMount>)
    ensures PhysicalMounts(k, name, a + b) == PhysicalMounts(k, name, a) + PhysicalMounts(k, name, b)
  {
    if b == [] {
      assert a + b == a;
    } else {
      assert (a + b)[..|a + b| - 1] == a + b[..|b| - 1];
      PhysicalMountsAppend(k, name, a, b[..|b| - 1]);
    }
  }

  /** A list with no mount named `name` contributes nothing. */
  lemma {:induction false} PhysicalMountsNone(k: Consts, name: string, ms: seq<VolumeMount>)
    requires forall m :: m in ms ==> m.name != name
    ensures PhysicalMounts(k, name, ms) == []
  {
    if ms != [] {
      PhysicalMountsNone(k, name, ms[..|ms| - 1]);
    }
  }

  /**
   * One visit of the outer loop, on the volume list: index i is rewritten in place and
   * a triggering volume appends its physical twin.
   */
  lemma StepVolumes(k: Consts, virtualLogsPath: string, spec: PodSpec, i: nat)
    requires i < |spec.volumes|
    ensures var vs := spec.volumes;
      RewriteUpTo(k, virtualLogsPath, spec, i + 1).volumes
        == RewrittenVolumes(k, virtualLogsPath, vs[..i]) + [RewrittenVolume(k, virtualLogsPath, vs[i])] + vs[i + 1..]
           + PhysicalVolumes(k, vs[..i])
           + (if Triggers(k, vs[i]) then [PhysicalVolume(k, vs[i].name, vs[i].hostPath.value.hostPathType)] else [])
  {
    var vs := spec.volumes;
    assert vs[..i + 1][..i] == vs[..i];
    assert RewrittenVolumes(k, virtualLogsPath, vs[..i + 1])
        == RewrittenVolumes(k, virtualLogsPath, vs[..i]) + [RewrittenVolume(k, virtualLogsPath, vs[i])];
  }

  /**
   * One visit of the outer loop, on the containers. The inner scan of line 287 sees the
   * mounts appended by earlier visits too, but their names carry the suffix while the
   * triggering volume's name does not, so they never match.
   */
  lemma StepContainers(k: Consts, vs: seq<Volume>, i: nat, cs: seq<Container>)
    requires i < |vs|
    ensures Triggers(k, vs[i]) ==>
      CorrectedContainers(k, vs[..i + 1], cs)
        == seq(|cs|, j requires 0 <= j < |cs| => WithPhysicalMounts(k, vs[i].name, CorrectedContainers(k, vs[..i], cs)[j]))
    ensures !Triggers(k, vs[i]) ==> CorrectedContainers(k, vs[..i + 1], cs) == CorrectedContainers(k, vs[..i], cs)
  {
    assert vs[..i + 1][..i] == vs[..i];
    forall j | 0 <= j < |cs|
      ensures CorrectedContainers(k, vs[..i + 1], cs)[j]
           == if Triggers(k, vs[i]) then WithPhysicalMounts(k, vs[i].name, CorrectedContainers(k, vs[..i], cs)[j])
              else CorrectedContainers(k, vs[..i], cs)[j]
    {
      var ms := cs[j].volumeMounts;
      var added := AddedMounts(k, vs[..i], ms);
      if Triggers(k, vs[i]) {
        forall m | m in added ensures m.name != vs[i].name {
          assert HasSuffix(m.name, k.physicalLogVolumeNameSuffix);
        }
        PhysicalMountsNone(k, vs[i].name, added);
        PhysicalMountsAppend(k, vs[i].name, ms, added);
      }
    }
  }

  lemma RewriteUpToStart(k: Consts, virtualLogsPath: string, spec: PodSpec)
    ensures RewriteUpTo(k, virtualLogsPath, spec, 0) == spec
  {
    assert spec.volumes[..0] == [] && spec.volumes[0..] == spec.volumes;
    forall j | 0 <= j < |spec.containers|
      ensures CorrectedContainers(k, [], spec.containers)[j] == spec.containers[j]
    {
      assert spec.containers[j].volumeMounts + [] == spec.containers[j].volumeMounts;
    }
  }

  lemma RewriteUpToEnd(k: Consts, virtualLogsPath: string, spec: PodSpec)
    ensures RewriteUpTo(k, virtualLogsPath, spec, |spec.volumes|) == RewriteHostPaths(k, virtualLogsPath, spec)
  {
    var vs := spec.volumes;
    assert vs[..|vs|] == vs && vs[|vs|..] == [];
  }

  /**
   * One visit of the loop of line 240, as the method performs it: from the state after
   * `i` volumes, `r` is the state after `i + 1`.
   */
  lemma Step(k: Consts, virtualLogsPath: string, spec: PodSpec, i: nat, before: PodSpec, r: PodSpec)
    requires i < |spec.volumes|
    requires before == RewriteUpTo(k, virtualLogsPath, spec, i)
    requires var v := spec.volumes[i];
      if !v.hostPath.Some? then r == before
      else
        var mid := if Triggers(k, v)
                   then WithPhysicalLogVolume(k, v.name, v.hostPath.value.hostPathType,
                                              SetHostPath(before, i, virtualLogsPath + "/pods"))
                   else before;
        var path := if Triggers(k, v) then virtualLogsPath + "/pods" else v.hostPath.value.path;
        r == if path == k.logHostpathPath then SetHostPath(mid, i, virtualLogsPath) else mid
    ensures r == RewriteUpTo(k, virtualLogsPath, spec, i + 1)
  {
    var vs := spec.volumes;
    var v := vs[i];
    assert before.volumes[i] == v;
    StepVolumes(k, virtualLogsPath, spec, i);
    StepContainers(k, spec.volumes, i, spec.containers);
    var after := RewriteUpTo(k, virtualLogsPath, spec, i + 1);
    var prefix := RewrittenVolumes(k, virtualLogsPath, vs[..i]);
    var appended := PhysicalVolumes(k, vs[..i]);
    assert before.volumes == prefix + [v] + vs[i + 1..] + appended by {
      assert vs[i..] == [v] + vs[i + 1..];
    }
    assert r.volumes == after.volumes;
    assert r.containers == after.containers;
  }

  // ---------------------------------------------------------------------------
  // What the rewrite does, stated against the original pod.
  // ---------------------------------------------------------------------------

  /**
   * The assumptions about the constants under which the rewrite is well behaved: the two
   * reserved paths differ, and neither tenant path is one of them.
   */
  predicate ReservedPathsDistinct(k: Consts, virtualLogsPath: string) {
    && k.podLoggingHostpathPath != k.logHostpathPath
    && virtualLogsPath != k.podLoggingHostpathPath
    && virtualLogsPath != k.logHostpathPath
    && virtualLogsPath + "/pods" != k.podLoggingHostpathPath
    && virtualLogsPath + "/pods" != k.logHostpathPath
  }

  /** The original volumes that trigger the dual mount, in order. */
  function Triggering(k: Consts, vs: seq<Volume>): (r: seq<Volume>)
    ensures forall v :: v in r <==> v in vs && Triggers(k, v)
  {
    if vs == [] then []
    else
      var last := vs[|vs| - 1];
      assert vs == vs[..|vs| - 1] + [last];
      Triggering(k, vs[..|vs| - 1]) + (if Triggers(k, last) then [last] else [])
  }

  /** The mounts of a given volume, in order. */
  function MountsOf(name: string, ms: seq<VolumeMount>): (r: seq<VolumeMount>)
    ensures forall m :: m in r <==> m in ms && m.name == name
  {
    if ms == [] then []
    else
      var last := ms[|ms| - 1];
      assert ms == ms[..|ms| - 1] + [last];
      MountsOf(name, ms[..|ms| - 1]) + (if last.name == name then [last] else [])
  }

  /**
   * The rewritten paths: a triggering pod-logging volume now points at the tenant's
   * "<logs>/pods", a volume at the generic log path at the tenant's log root, and every
   * other volume, including a non-hostPath one, is as it was. Names and hostPath types
   * never change.
   */
  lemma RewrittenPaths(k: Consts, virtualLogsPath: string, spec: PodSpec, j: nat)
    requires ReservedPathsDistinct(k, virtualLogsPath)
    requires j < |spec.volumes|
    ensures var v, w := spec.volumes[j], RewriteHostPaths(k, virtualLogsPath, spec).volumes[j];
      && w.name == v.name
      && w.hostPath.Some? == v.hostPath.Some?
      && (v.hostPath.None? ==> w == v)
      && (Triggers(k, v) ==> w.hostPath == Some(v.hostPath.value.(path := virtualLogsPath + "/pods")))
      && ((v.hostPath.Some? && v.hostPath.value.path == k.logHostpathPath)
          ==> w.hostPath == Some(v.hostPath.value.(path := virtualLogsPath)))
      && (v.hostPath.Some? && !Triggers(k, v) && v.hostPath.value.path != k.logHostpathPath ==> w == v)
  {
  }

  /** Exactly one physical volume is appended per triggering volume, in the same order. */
  lemma {:induction false} PhysicalVolumesPerTrigger(k: Consts, vs: seq<Volume>)
    ensures var ps, ts := PhysicalVolumes(k, vs), Triggering(k, vs);
      && |ps| == |ts|
      && forall j :: 0 <= j < |ts| ==>
           Triggers(k, ts[j]) && ps[j] == PhysicalVolume(k, ts[j].name, ts[j].hostPath.value.hostPathType)
  {
    if vs != [] {
      PhysicalVolumesPerTrigger(k, vs[..|vs| - 1]);
    }
  }

  /** For one volume, each mount of it gains exactly one physical copy, in order. */
  lemma {:induction false} PhysicalMountsPerMount(k: Consts, name: string, ms: seq<VolumeMount>)
    ensures var ps, os := PhysicalMounts(k, name, ms), MountsOf(name, ms);
      && |ps| == |os|
      && forall j :: 0 <= j < |os| ==> ps[j] == PhysicalMount(k, name, os[j])
  {
    if ms != [] {
      PhysicalMountsPerMount(k, name, ms[..|ms| - 1]);
    }
  }

  /**
   * The whole volume list after the pass: the original volumes rewritten in place, then
   * one physical twin per triggering volume, each named with the suffix, at the reserved
   * pod-logging path, with the original's hostPath type.
   */
  lemma RewrittenVolumeList(k: Consts, virtualLogsPath: string, spec: PodSpec)
    ensures var r, vs, ts := RewriteHostPaths(k, virtualLogsPath, spec), spec.volumes, Triggering(k, spec.volumes);
      && |r.volumes| == |vs| + |ts|
      && (forall j :: 0 <= j < |vs| ==> r.volumes[j] == RewrittenVolume(k, virtualLogsPath, vs[j]))
      && (forall j :: 0 <= j < |ts| ==>
            Triggers(k, ts[j])
            && r.volumes[|vs| + j] == PhysicalVolume(k, ts[j].name, ts[j].hostPath.value.hostPathType))
  {
    PhysicalVolumesPerTrigger(k, spec.volumes);
  }

  /** Every mount appended to a container is the physical copy of one of its mounts of a triggering volume. */
  lemma {:induction false} AddedMountsSound(k: Consts, vs: seq<Volume>, ms: seq<VolumeMount>)
    ensures forall a :: a in AddedMounts(k, vs, ms) ==>
      exists t, m :: t in vs && Triggers(k, t) && m in ms && m.name == t.name && a == PhysicalMount(k, t.name, m)
  {
    if vs != [] {
      var init, last := vs[..|vs| - 1], vs[|vs| - 1];
      AddedMountsSound(k, init, ms);
      forall a | a in AddedMounts(k, vs, ms)
        ensures exists t, m :: t in vs && Triggers(k, t) && m in ms && m.name == t.name && a == PhysicalMount(k, t.name, m)
      {
        if a in AddedMounts(k, init, ms) {
          var t, m :| t in init && Triggers(k, t) && m in ms && m.name == t.name && a == PhysicalMount(k, t.name, m);
          assert t in vs;
        } else {
          assert Triggers(k, last) && a in PhysicalMounts(k, last.name, ms);
          PhysicalMountsPerMount(k, last.name, ms);
          var os := MountsOf(last.name, ms);
          var j :| 0 <= j < |os| && a == PhysicalMounts(k, last.name, ms)[j];
          assert os[j] in os;
          assert a == PhysicalMount(k, last.name, os[j]);
        }
      }
    }
  }

  /** Every mount of a triggering volume gains its physical copy. */
  lemma {:induction false} AddedMountsComplete(k: Consts, vs: seq<Volume>, ms: seq<VolumeMount>, t: Volume, m: VolumeMount)
    requires t in vs && Triggers(k, t)
    requires m in ms && m.name == t.name
    ensures PhysicalMount(k, t.name, m) in AddedMounts(k, vs, ms)
  {
    var init, last := vs[..|vs| - 1], vs[|vs| - 1];
    assert vs == init + [last];
    if t == last {
      PhysicalMountsPerMount(k, t.name, ms);
      var os := MountsOf(t.name, ms);
      var j :| 0 <= j < |os| && os[j] == m;
      assert PhysicalMounts(k, t.name, ms)[j] == PhysicalMount(k, t.name, m);
    } else {
      AddedMountsComplete(k, init, ms, t, m);
    }
  }

  /**
   * The containers after the pass: same count, same names and images, their existing
   * mounts kept as a prefix, then exactly the appended physical copies, named with the
   * suffix and at the physical mount path. Init containers and the rest of the spec are
   * untouched.
   */
  lemma RewrittenContainers(k: Consts, virtualLogsPath: string, spec: PodSpec)
    ensures var r := RewriteHostPaths(k, virtualLogsPath, spec);
      && r.initContainers == spec.initContainers
      && r.nodeName == spec.nodeName && r.nodeSelector == spec.nodeSelector && r.tolerations == spec.tolerations
      && r.ephemeralContainers == spec.ephemeralContainers
      && |r.containers| == |spec.containers|
      && forall j :: 0 <= j < |spec.containers| ==>
           var c, d := spec.containers[j], r.containers[j];
           && d.name == c.name && d.image == c.image
           && |d.volumeMounts| >= |c.volumeMounts|
           && d.volumeMounts[..|c.volumeMounts|] == c.volumeMounts
           && d.volumeMounts[|c.volumeMounts|..] == AddedMounts(k, spec.volumes, c.volumeMounts)
           && forall a :: a in d.volumeMounts[|c.volumeMounts|..] ==>
                HasSuffix(a.name, k.physicalLogVolumeNameSuffix) && a.mountPath == k.physicalLogVolumeMountPath
  {
    var r := RewriteHostPaths(k, virtualLogsPath, spec);
    forall j | 0 <= j < |spec.containers|
      ensures var c, d := spec.containers[j], r.containers[j];
        d.volumeMounts[..|c.volumeMounts|] == c.volumeMounts
        && d.volumeMounts[|c.volumeMounts|..] == AddedMounts(k, spec.volumes, c.volumeMounts)
    {
      var c := spec.containers[j];
      assert r.containers[j].volumeMounts == c.volumeMounts + AddedMounts(k, spec.volumes, c.volumeMounts);
    }
  }

  // ---------------------------------------------------------------------------
  // Idempotence.
  // ---------------------------------------------------------------------------

  /** A volume the rewrite leaves alone and does not dual-mount. */
  predicate Settled(k: Consts, virtualLogsPath: string, v: Volume) {
    !Triggers(k, v) && RewrittenVolume(k, virtualLogsPath, v) == v
  }

  /** A rewritten volume is settled: its new path is not a reserved path. */
  lemma RewrittenVolumeSettled(k: Consts, virtualLogsPath: string, v: Volume)
    requires ReservedPathsDistinct(k, virtualLogsPath)
    ensures Settled(k, virtualLogsPath, RewrittenVolume(k, virtualLogsPath, v))
  {
  }

  /** An appended volume is settled: its name carries the suffix (the guard of line 244). */
  lemma PhysicalVolumeSettled(k: Consts, virtualLogsPath: string, name: string, hostPathType: Option<string>)
    requires k.podLoggingHostpathPath != k.logHostpathPath
    ensures Settled(k, virtualLogsPath, PhysicalVolume(k, name, hostPathType))
  {
  }

  /** A pass over settled volumes appends no volume ... */
  lemma {:induction false} SettledAppendsNoVolume(k: Consts, virtualLogsPath: string, vs: seq<Volume>)
    requires forall v :: v in vs ==> Settled(k, virtualLogsPath, v)
    ensures PhysicalVolumes(k, vs) == []
  {
    if vs != [] {
      assert vs[|vs| - 1] in vs;
      SettledAppendsNoVolume(k, virtualLogsPath, vs[..|vs| - 1]);
    }
  }

  /** ... and no mount. */
  lemma {:induction false} SettledAppendsNoMount(k: Consts, virtualLogsPath: string, vs: seq<Volume>, ms: seq<VolumeMount>)
    requires forall v :: v in vs ==> Settled(k, virtualLogsPath, v)
    ensures AddedMounts(k, vs, ms) == []
  {
    if vs != [] {
      assert vs[|vs| - 1] in vs;
      SettledAppendsNoMount(k, virtualLogsPath, vs[..|vs| - 1], ms);
    }
  }

  /** A pod spec whose volumes are all settled is a fixed point of the rewrite. */
  lemma SettledIsFixedPoint(k: Consts, virtualLogsPath: string, spec: PodSpec)
    requires forall v :: v in spec.volumes ==> Settled(k, virtualLogsPath, v)
    ensures RewriteHostPaths(k, virtualLogsPath, spec) == spec
  {
    var r := RewriteHostPaths(k, virtualLogsPath, spec);
    SettledAppendsNoVolume(k, virtualLogsPath, spec.volumes);
    assert r.volumes == spec.volumes by {
      forall j | 0 <= j < |spec.volumes| ensures r.volumes[j] == spec.volumes[j] {
        assert spec.volumes[j] in spec.volumes;
      }
    }
    forall j | 0 <= j < |spec.containers| ensures r.containers[j] == spec.containers[j] {
      var ms := spec.containers[j].volumeMounts;
      SettledAppendsNoMount(k, virtualLogsPath, spec.volumes, ms);
      assert ms + [] == ms;
    }
  }

  /**
   * The rewrite is idempotent: run again on its own output (as every reconcile does),
   * it changes nothing.
   */
  lemma RewriteIdempotent(k: Consts, virtualLogsPath: string, spec: PodSpec)
    requires ReservedPathsDistinct(k, virtualLogsPath)
    ensures var once := RewriteHostPaths(k, virtualLogsPath, spec);
      RewriteHostPaths(k, virtualLogsPath, once) == once
  {
    var once := RewriteHostPaths(k, virtualLogsPath, spec);
    forall v | v in once.volumes ensures Settled(k, virtualLogsPath, v) {
      var j :| 0 <= j < |once.volumes| && once.volumes[j] == v;
      if j < |spec.volumes| {
        RewrittenVolumeSettled(k, virtualLogsPath, spec.volumes[j]);
      } else {
        var w := once.volumes[j];
        assert w in PhysicalVolumes(k, spec.volumes);
        assert !Triggers(k, w);
      }
    }
    SettledIsFixedPoint(k, virtualLogsPath, once);
  }
}
