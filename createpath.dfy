/**
 * The create-path policy (SyncDown): a virtual pod without a physical twin.
 * An orphaned identity, one that is terminating or has already started, is
 * deleted at once; otherwise the translated pod gets the configured
 * tolerations, the node-selector policy and the host-path rewrite, and is
 * handed to SyncDownCreate unless the external scheduler has yet to assign a
 * node. Client calls and foreign collaborators are replaced by their results,
 * passed in as a DownOracle.
 */
module CreatePath {
  import opened Wrappers
  import opened PodTypes
  import opened HostPathRewriter

  /** The results of every call SyncDown may make; each is read only if that call is made. */
  datatype DownOracle = DownOracle(
    deleteErr: Option<Error>,            // Delete of the orphaned virtual pod
    podSecurity: Result<bool, Error>,    // isPodSecurityStandardsValid
    translated: Result<Pod, Error>,      // translate: the baseline physical pod
    nodeLookupErr: Option<Error>,        // Get of the explicit node in the virtual cluster
    createReply: Reply)                  // SyncDownCreate

  /** A virtual pod that is terminating, or has run before, must not get a new physical twin. */
  predicate Orphaned(v: Pod) {
    v.deletionTimestamp.Some? || v.status.startTime.Some?
  }

  /** The configured tolerations appended after the pod's own. */
  function WithTolerations(p: Pod, tolerations: seq<Toleration>): Pod {
    p.(spec := p.spec.(tolerations := p.spec.tolerations + tolerations))
  }

  /** The candidate physical pod built from the translated one (lines 194-226). */
  function Candidate(s: Syncer, k: Consts, translated: Pod): Pod {
    var p := WithTolerations(translated, s.tolerations);
    var q := if s.nodeSelector.Some? && p.spec.nodeName == ""
             then p.(spec := p.spec.(nodeSelector := p.spec.nodeSelector + s.nodeSelector.value))
             else p;
    q.(spec := RewriteHostPaths(k, s.virtualLogsPath, q.spec))
  }

  /** What SyncDown (lines 161-234) does with a virtual pod. */
  function SyncDownPlan(s: Syncer, k: Consts, v: Pod, o: DownOracle): Trace {
    if Orphaned(v) then
      Trace([DeleteVirtual(Some(ZeroGracePeriod), None)], NotFoundTolerated(o.deleteErr))
    else if s.podSecurityStandard != "" && o.podSecurity.Failure? then
      Trace([], Returned(Some(o.podSecurity.error)))
    else if s.podSecurityStandard != "" && o.podSecurity == Success(false) then
      Trace([], Done)
    else if o.translated.Failure? then
      Trace([], Returned(Some(o.translated.error)))
    else if s.nodeSelector.Some? && o.translated.value.spec.nodeName != "" && o.nodeLookupErr.Some? then
      if o.nodeLookupErr.value == NotFound
      then Trace([Warn("SyncWarning")], Reply(false, NodeMissingRetrySeconds, None))
      else Trace([], Returned(o.nodeLookupErr))
    else
      var p := Candidate(s, k, o.translated.value);
      if s.enableScheduler && p.spec.nodeName == "" then Trace([], Done)
      else Trace([SyncDownCreate(p)], o.createReply)
  }

  /** SyncDown (lines 161-234), step by step. */
  method SyncDown(s: Syncer, k: Consts, vPod: Pod, o: DownOracle) returns (t: Trace)
    ensures t == SyncDownPlan(s, k, vPod, o)
  {
    if vPod.deletionTimestamp.Some? || vPod.status.startTime.Some? {
      // delete pod immediately: Delete(vPod, GracePeriodSeconds: &zero)
      return Trace([DeleteVirtual(Some(ZeroGracePeriod), None)], NotFoundTolerated(o.deleteErr));
    }

    if s.podSecurityStandard != "" {
      match o.podSecurity
      case Failure(e) => return Trace([], Returned(Some(e)));
      case Success(valid) =>
        if !valid {
          return Trace([], Done);
        }
    }

    if o.translated.Failure? {
      return Trace([], Returned(Some(o.translated.error)));
    }
    var translated := o.translated.value;
    var pPod := translated;

    // ensure tolerations
    for i := 0 to |s.tolerations|
      invariant pPod == WithTolerations(translated, s.tolerations[..i])
    {
      assert s.tolerations[..i + 1] == s.tolerations[..i] + [s.tolerations[i]];
      pPod := pPod.(spec := pPod.spec.(tolerations := pPod.spec.tolerations + [s.tolerations[i]]));
    }
    assert s.tolerations[..|s.tolerations|] == s.tolerations;

    // ensure node selector
    if s.nodeSelector.Some? {
      if pPod.spec.nodeName == "" {
        var labels := s.nodeSelector.value;
        var selector := pPod.spec.nodeSelector;
        var pending := labels.Keys;
        while pending != {}
          invariant pending <= labels.Keys
          invariant selector == pPod.spec.nodeSelector + (map key | key in labels.Keys - pending :: labels[key])
          decreases pending
        {
          var key :| key in pending;
          selector := selector[key := labels[key]];
          pending := pending - {key};
        }
        assert (map key | key in labels.Keys - {} :: labels[key]) == labels;
        pPod := pPod.(spec := pPod.spec.(nodeSelector := selector));
      } else if o.nodeLookupErr.Some? {
        if o.nodeLookupErr.value != NotFound {
          return Trace([], Returned(o.nodeLookupErr));
        }
        return Trace([Warn("SyncWarning")], Reply(false, NodeMissingRetrySeconds, None));
      }
    }

    var spec := CheckAndRewriteHostPath(k, s.virtualLogsPath, pPod.spec);
    pPod := pPod.(spec := spec);

    // if scheduler is enabled we only sync if the pod has a node name
    if s.enableScheduler && pPod.spec.nodeName == "" {
      return Trace([], Done);
    }

    return Trace([SyncDownCreate(pPod)], o.createReply);
  }

  // ---------------------------------------------------------------------------
  // Properties of the create path.
  // ---------------------------------------------------------------------------

  /**
   * An orphaned virtual pod is deleted with grace period zero and nothing is created;
   * not-found counts as success.
   */
  lemma OrphanDeleted(s: Syncer, k: Consts, v: Pod, o: DownOracle)
    requires Orphaned(v)
    ensures var t := SyncDownPlan(s, k, v, o);
      && t.calls == [DeleteVirtual(Some(0), None)]
      && (o.deleteErr.None? || o.deleteErr == Some(NotFound) ==> t.reply == Done)
  {
  }

  /** A created physical pod carries the translated pod's tolerations followed by the configured ones. */
  lemma CreatedPodTolerations(s: Syncer, k: Consts, v: Pod, o: DownOracle, p: Pod)
    requires SyncDownCreate(p) in SyncDownPlan(s, k, v, o).calls
    ensures !Orphaned(v) && o.translated.Success?
    ensures p.spec.tolerations == o.translated.value.spec.tolerations + s.tolerations
    ensures p.spec.nodeName == o.translated.value.spec.nodeName
  {
  }

  /**
   * With a node selector configured, a created pod without an explicit node gets the
   * union of its own selector and the configured labels, the configured value winning on
   * a shared key.
   */
  lemma CreatedPodSelector(s: Syncer, k: Consts, v: Pod, o: DownOracle, p: Pod)
    requires SyncDownCreate(p) in SyncDownPlan(s, k, v, o).calls
    requires s.nodeSelector.Some? && o.translated.Success? && o.translated.value.spec.nodeName == ""
    ensures var own, labels := o.translated.value.spec.nodeSelector, s.nodeSelector.value;
      && p.spec.nodeSelector.Keys == own.Keys + labels.Keys
      && (forall key :: key in labels ==> p.spec.nodeSelector[key] == labels[key])
      && (forall key :: key in own && key !in labels ==> p.spec.nodeSelector[key] == own[key])
  {
  }

  /**
   * With a node selector configured, an explicit node missing from the virtual cluster
   * records a warning and retries after 15 seconds without creating anything.
   */
  lemma NodeMissingRetries(s: Syncer, k: Consts, v: Pod, o: DownOracle)
    requires !Orphaned(v) && (s.podSecurityStandard == "" || o.podSecurity == Success(true))
    requires o.translated.Success? && o.translated.value.spec.nodeName != ""
    requires s.nodeSelector.Some? && o.nodeLookupErr == Some(NotFound)
    ensures SyncDownPlan(s, k, v, o) == Trace([Warn("SyncWarning")], Reply(false, 15, None))
  {
  }

  /** With the external scheduler enabled, a pod without a node is not created. */
  lemma SchedulerWaitsForNode(s: Syncer, k: Consts, v: Pod, o: DownOracle)
    requires s.enableScheduler && o.translated.Success? && o.translated.value.spec.nodeName == ""
    ensures forall p :: SyncDownCreate(p) !in SyncDownPlan(s, k, v, o).calls
  {
  }

  /**
   * A created physical pod has had its host paths rewritten, and that rewrite is settled:
   * rewriting it again changes nothing.
   */
  lemma CreatedPodRewriteSettled(s: Syncer, k: Consts, v: Pod, o: DownOracle, p: Pod)
    requires ReservedPathsDistinct(k, s.virtualLogsPath)
    requires SyncDownCreate(p) in SyncDownPlan(s, k, v, o).calls
    ensures RewriteHostPaths(k, s.virtualLogsPath, p.spec) == p.spec
  {
    var t := o.translated.value;
    var q := WithTolerations(t, s.tolerations);
    var r := if s.nodeSelector.Some? && q.spec.nodeName == ""
             then q.(spec := q.spec.(nodeSelector := q.spec.nodeSelector + s.nodeSelector.value))
             else q;
    RewriteIdempotent(k, s.virtualLogsPath, r.spec);
  }

  /**
   * A fresh virtual pod, with pod security, node selector and scheduler all off and no
   * volume to rewrite, is created as translated with the tenant's tolerations appended
   * and nothing else changed.
   */
  lemma PlainPodCreated(s: Syncer, k: Consts, v: Pod, o: DownOracle)
    requires !Orphaned(v) && s.podSecurityStandard == "" && s.nodeSelector.None? && !s.enableScheduler
    requires o.translated.Success?
    requires forall w :: w in o.translated.value.spec.volumes ==> Settled(k, s.virtualLogsPath, w)
    ensures SyncDownPlan(s, k, v, o)
         == Trace([SyncDownCreate(WithTolerations(o.translated.value, s.tolerations))], o.createReply)
  {
    SettledIsFixedPoint(k, s.virtualLogsPath, WithTolerations(o.translated.value, s.tolerations).spec);
  }
}
