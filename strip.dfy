/**
 * The host-rewrite status stripper (stripHostRewriteContainer): on a pod whose
 * hosts file was rewritten, the status entry of the internal rewrite init
 * container is dropped before the physical status is compared with, or
 * copied onto, the virtual one.
 */
module HostRewriteStrip {
  import opened Wrappers
  import opened PodTypes

  /** The statuses not named `name`, in their original order. */
  function WithoutContainer(ss: seq<ContainerStatus>, name: string): (r: seq<ContainerStatus>)
    ensures |r| <= |ss|
    ensures forall s :: s in r <==> s in ss && s.name != name
  {
    if ss == [] then []
    else
      var last := ss[|ss| - 1];
      assert ss == ss[..|ss| - 1] + [last];
      WithoutContainer(ss[..|ss| - 1], name) + (if last.name == name then [] else [last])
  }

  /** The annotation test of line 522: a missing key reads as "". */
  predicate HostsRewritten(k: Consts, p: Pod) {
    k.hostsRewrittenAnnotation in p.annotations && p.annotations[k.hostsRewrittenAnnotation] == "true"
  }

  /** The pod stripHostRewriteContainer returns. */
  function StrippedPod(k: Consts, p: Pod): Pod {
    if !HostsRewritten(k, p) then p
    else p.(status := p.status.(initContainerStatuses :=
              WithoutContainer(p.status.initContainerStatuses, k.hostsRewriteContainerName)))
  }

  /** stripHostRewriteContainer (lines 521-538); DeepCopy is a value copy. */
  method StripHostRewriteContainer(k: Consts, pPod: Pod) returns (r: Pod)
    ensures r == StrippedPod(k, pPod)
  {
    if !(k.hostsRewrittenAnnotation in pPod.annotations)
       || pPod.annotations[k.hostsRewrittenAnnotation] != "true" {
      return pPod;
    }
    var newPod := pPod;
    var kept: seq<ContainerStatus> := [];
    var all := newPod.status.initContainerStatuses;
    if |all| > 0 {
      for i := 0 to |all|
        invariant kept == WithoutContainer(all[..i], k.hostsRewriteContainerName)
      {
        assert all[..i + 1][..i] == all[..i];
        var v := all[i];
        if v.name == k.hostsRewriteContainerName {
          continue;
        }
        kept := kept + [v];
      }
      assert all[..|all|] == all;
      newPod := newPod.(status := newPod.status.(initContainerStatuses := kept));
    }
    return newPod;
  }

  /** Filtering distributes over concatenation, so the kept entries stay in their original order. */
  lemma {:induction false} WithoutContainerAppend(a: seq<ContainerStatus>, b: seq<ContainerStatus>, name: string)
    ensures WithoutContainer(a + b, name) == WithoutContainer(a, name) + WithoutContainer(b, name)
  {
    if b == [] {
      assert a + b == a;
    } else {
      assert (a + b)[..|a + b| - 1] == a + b[..|b| - 1];
      WithoutContainerAppend(a, b[..|b| - 1], name);
    }
  }

  /** A list without the entry is returned as it is. */
  lemma {:induction false} WithoutContainerAbsent(ss: seq<ContainerStatus>, name: string)
    requires forall s :: s in ss ==> s.name != name
    ensures WithoutContainer(ss, name) == ss
  {
    if ss != [] {
      assert ss == ss[..|ss| - 1] + [ss[|ss| - 1]];
      WithoutContainerAbsent(ss[..|ss| - 1], name);
    }
  }

  /**
   * Without the annotation set to "true" the pod is returned unchanged; with it, only the
   * init-container statuses change, losing exactly the entries of the rewrite container.
   */
  lemma StrippedPodEffect(k: Consts, p: Pod)
    ensures !HostsRewritten(k, p) ==> StrippedPod(k, p) == p
    ensures var q := StrippedPod(k, p);
      q == p.(status := p.status.(initContainerStatuses := q.status.initContainerStatuses))
    ensures HostsRewritten(k, p) ==>
      forall s :: s in StrippedPod(k, p).status.initContainerStatuses
        <==> s in p.status.initContainerStatuses && s.name != k.hostsRewriteContainerName
  {
  }

  /** Stripping twice is stripping once. */
  lemma StripIdempotent(k: Consts, p: Pod)
    ensures StrippedPod(k, StrippedPod(k, p)) == StrippedPod(k, p)
  {
    if HostsRewritten(k, p) {
      WithoutContainerAbsent(StrippedPod(k, p).status.initContainerStatuses, k.hostsRewriteContainerName);
    }
  }
}
