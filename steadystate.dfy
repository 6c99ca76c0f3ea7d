/**
 * The steady-state policy (Sync): one reconcile of a virtual pod and its
 * physical twin. Branches are tried in order and the first that applies ends
 * the cycle: deletion propagation, node binding, status flow, ephemeral
 * containers, the pod-security check, and finally the spec update. Every
 * client call and foreign collaborator is replaced by its result, passed in
 * as a SyncOracle; the result is the Trace of calls issued and the reply.
 */
module SteadyState {
  import opened Wrappers
  import opened PodTypes
  import opened NodeBinder
  import opened HostRewriteStrip
  import opened EphemeralContainerSync

  /** The results of every call Sync may make; each is read only if that call is made. */
  datatype SyncOracle = SyncOracle(
    deleteErr: Option<Error>,                        // the one delete a cycle may issue
    nodeLookupErr: Option<Error>,                    // Get of the physical node in the virtual cluster
    bindErr: Option<Error>,                          // the Bind subresource call
    polls: seq<PollObservation>,                     // the Gets made while waiting for the binding
    conditions: Result<bool, Error>,                 // UpdateConditions: whether it updated anything
    statusUpdateErr: Option<Error>,                  // Status().Update of the virtual pod
    serviceListErr: Option<Error>,                   // getK8sIpDnsIpServiceList
    ephemeralErr: Option<Error>,                     // AddEphemeralContainer
    podSecurity: Result<bool, Error>,                // isPodSecurityStandardsValid
    translateUpdate: Result<Option<Pod>, Error>,     // translateUpdate
    updateReply: Reply)                              // SyncDownUpdate

  /**
   * Line 321 dereferences both deletion grace periods once both pods are terminating; the
   * API server sets the grace period together with the deletion timestamp.
   */
  predicate GraceKnown(p: Pod, v: Pod) {
    p.deletionTimestamp.Some? && v.deletionTimestamp.Some? ==>
      p.deletionGracePeriodSeconds.Some? && v.deletionGracePeriodSeconds.Some?
  }

  /** Sync (lines 305-429). */
  function Sync(s: Syncer, k: Consts, p: Pod, v: Pod, o: SyncOracle): Trace
    requires GraceKnown(p, v)
  {
    if p.deletionTimestamp.Some? then
      if v.deletionTimestamp.None? then
        var gracePeriod := v.spec.terminationGracePeriodSeconds.GetOr(MinimumGracePeriodInSeconds);
        Trace([DeleteVirtual(Some(gracePeriod), None)], Returned(o.deleteErr))
      else if v.deletionGracePeriodSeconds.value != p.deletionGracePeriodSeconds.value then
        Trace([DeleteVirtual(p.deletionGracePeriodSeconds, Some(v.uid))], Returned(o.deleteErr))
      else
        Trace([], Done)
    else if v.deletionTimestamp.Some? then
      Trace([DeletePhysical(v.deletionGracePeriodSeconds, Some(p.uid))], NotFoundTolerated(o.deleteErr))
    else if p.spec.nodeName != "" then
      var n := EnsureNode(p, v, o.deleteErr, o.nodeLookupErr, o.bindErr, o.polls);
      if n.err.Some? then Trace(n.calls, Returned(n.err))
      else if n.requeue then Trace(n.calls, RequeueNow)
      else
        var rest := StatusAndSpec(s, k, p, v, o);
        Trace(n.calls + rest.calls, rest.reply)
    else if p.spec.nodeName != "" && v.spec.nodeName != "" && p.spec.nodeName != v.spec.nodeName then
      // line 349: the guard contradicts the failed test of line 342 (see DeadBranchUnreachable)
      Trace([DeleteVirtual(Some(MinimumGracePeriodInSeconds), None)], Returned(o.deleteErr))
    else
      StatusAndSpec(s, k, p, v, o)
  }

  /** Lines 360-429: status flow, ephemeral containers, pod security, spec flow. */
  function StatusAndSpec(s: Syncer, k: Consts, p: Pod, v: Pod, o: SyncOracle): Trace {
    var stripped := StrippedPod(k, p);
    match o.conditions
    case Failure(e) => Trace([], Returned(Some(e)))
    case Success(updated) =>
      if updated then Trace([], Done)
      else if v.status != stripped.status then
        // a conflict is returned for a retry but not reported as a warning event
        var warn := if o.statusUpdateErr.Some? && o.statusUpdateErr.value != Conflict then [Warn("SyncError")] else [];
        Trace([UpdateVirtualStatus(v.(status := stripped.status))] + warn, Returned(o.statusUpdateErr))
      else
        var (ephemeral, err) := EphemeralStep(p, v, stripped, o);
        if err.Some? then Trace(ephemeral, Returned(err))
        else if s.podSecurityStandard != "" && o.podSecurity.Failure? then
          Trace(ephemeral, Returned(Some(o.podSecurity.error)))
        else if s.podSecurityStandard != "" && o.podSecurity == Success(false) then
          Trace(ephemeral, Done)
        else
          match o.translateUpdate
          case Failure(e) => Trace(ephemeral, Returned(Some(e)))
          case Success(updated) => Trace(ephemeral + [SyncDownUpdate(updated)], o.updateReply)
  }

  /** Lines 389-408: push the virtual ephemeral containers when the trigger fires. */
  function EphemeralStep(p: Pod, v: Pod, stripped: Pod, o: SyncOracle): (seq<Call>, Option<Error>) {
    if !NeedsEphemeralSync(v.spec.ephemeralContainers, stripped.spec.ephemeralContainers) then ([], None)
    else if o.serviceListErr.Some? then ([], o.serviceListErr)
    else ([AddEphemeralContainers(Items(v.spec.ephemeralContainers))], o.ephemeralErr)
  }

  // ---------------------------------------------------------------------------
  // Deletion propagation.
  // ---------------------------------------------------------------------------

  /**
   * A terminating physical pod ends the cycle with at most one call, a delete of the
   * virtual pod: with the virtual pod's own termination grace period (30 s when unset) if
   * the virtual pod is not yet terminating, with the physical grace period and a UID
   * precondition if the two grace periods differ, and with no call if they agree. The
   * physical pod is never touched and the cycle never requeues.
   */
  lemma PhysicalTerminating(s: Syncer, k: Consts, p: Pod, v: Pod, o: SyncOracle)
    requires GraceKnown(p, v) && p.deletionTimestamp.Some?
    ensures var t := Sync(s, k, p, v, o);
      && |t.calls| <= 1
      && (forall c :: c in t.calls ==> c.DeleteVirtual?)
      && !t.reply.requeue
      && (v.deletionTimestamp.None? ==>
            var grace := if v.spec.terminationGracePeriodSeconds.Some?
                         then v.spec.terminationGracePeriodSeconds.value else 30;
            t == Trace([DeleteVirtual(Some(grace), None)], Reply(false, 0, o.deleteErr)))
      && (v.deletionTimestamp.Some? && v.deletionGracePeriodSeconds != p.deletionGracePeriodSeconds ==>
            t == Trace([DeleteVirtual(p.deletionGracePeriodSeconds, Some(v.uid))], Reply(false, 0, o.deleteErr)))
      && (v.deletionTimestamp.Some? && v.deletionGracePeriodSeconds == p.deletionGracePeriodSeconds ==>
            t == Trace([], Done))
  {
  }

  /**
   * A virtual pod terminating alone deletes the physical pod with the virtual deletion
   * grace period and the physical UID as precondition; not-found counts as success.
   */
  lemma VirtualTerminating(s: Syncer, k: Consts, p: Pod, v: Pod, o: SyncOracle)
    requires p.deletionTimestamp.None? && v.deletionTimestamp.Some?
    ensures var t := Sync(s, k, p, v, o);
      && t.calls == [DeletePhysical(v.deletionGracePeriodSeconds, Some(p.uid))]
      && (o.deleteErr.None? || o.deleteErr == Some(NotFound) ==> t.reply == Done)
      && (o.deleteErr.Some? && o.deleteErr != Some(NotFound) ==> t.reply == Reply(false, 0, o.deleteErr))
  {
  }

  // ---------------------------------------------------------------------------
  // Node binding.
  // ---------------------------------------------------------------------------

  /**
   * A bind is issued only for live pods, only to the physical pod's node, only when that
   * node exists in the virtual cluster and only when the virtual pod has no node yet.
   */
  lemma BindOnlyToExistingNode(s: Syncer, k: Consts, p: Pod, v: Pod, o: SyncOracle, node: string)
    requires GraceKnown(p, v)
    requires BindVirtual(node) in Sync(s, k, p, v, o).calls
    ensures p.deletionTimestamp.None? && v.deletionTimestamp.None?
    ensures node == p.spec.nodeName != "" && v.spec.nodeName == ""
    ensures o.nodeLookupErr.None?
  {
  }

  /** The later steps of a cycle never bind. */
  lemma NoBindAfterEnsureNode(s: Syncer, k: Consts, p: Pod, v: Pod, o: SyncOracle)
    ensures forall node :: BindVirtual(node) !in StatusAndSpec(s, k, p, v, o).calls
  {
  }

  /**
   * Conversely, a live pair whose physical node exists in the virtual cluster while the
   * virtual pod has no node starts with the bind, and requeues once the binding shows.
   */
  lemma BindWhenNodeExists(s: Syncer, k: Consts, p: Pod, v: Pod, o: SyncOracle)
    requires p.deletionTimestamp.None? && v.deletionTimestamp.None?
    requires p.spec.nodeName != "" && v.spec.nodeName == "" && o.nodeLookupErr.None?
    ensures var t := Sync(s, k, p, v, o);
      && t.calls[0] == BindVirtual(p.spec.nodeName)
      && (o.bindErr.None? && WaitForBinding(o.polls).None? ==> t == Trace([BindVirtual(p.spec.nodeName)], RequeueNow))
      && (o.bindErr.Some? ==> t.reply == Reply(false, 0, o.bindErr))
  {
  }

  /**
   * A node missing from the virtual cluster requeues without any call; a virtual pod on
   * another node is deleted and the cycle requeues.
   */
  lemma NodeMissingOrDivergent(s: Syncer, k: Consts, p: Pod, v: Pod, o: SyncOracle)
    requires p.deletionTimestamp.None? && v.deletionTimestamp.None? && p.spec.nodeName != ""
    ensures v.spec.nodeName in {"", p.spec.nodeName} && o.nodeLookupErr == Some(NotFound) ==>
      Sync(s, k, p, v, o) == Trace([], RequeueNow)
    ensures v.spec.nodeName != "" && v.spec.nodeName != p.spec.nodeName ==>
      Sync(s, k, p, v, o) == Trace([DeleteVirtual(None, None)],
                                   if o.deleteErr.None? then RequeueNow else Reply(false, 0, o.deleteErr))
  {
  }

  /**
   * The node-mismatch branch of line 349 is dead: no cycle on two live pods ever issues
   * a delete with an explicit grace period, which is the only call that branch makes.
   */
  lemma DeadBranchUnreachable(s: Syncer, k: Consts, p: Pod, v: Pod, o: SyncOracle)
    requires p.deletionTimestamp.None? && v.deletionTimestamp.None?
    ensures forall c :: c in Sync(s, k, p, v, o).calls && c.DeleteVirtual? ==> c.grace.None?
  {
  }

  // ---------------------------------------------------------------------------
  // Status flow.
  // ---------------------------------------------------------------------------

  /** A live pair whose node needs no action (none assigned, or the same on both sides). */
  predicate NodeInSync(p: Pod, v: Pod, o: SyncOracle) {
    p.spec.nodeName == "" || (v.spec.nodeName == p.spec.nodeName && o.nodeLookupErr.None?)
  }

  /**
   * Once the conditions are merged without change, a physical status that differs from the
   * virtual one, after removing the hosts-rewrite init container's entry, is copied onto
   * the virtual pod and ends the cycle; a failed write is returned, and reported as a
   * warning unless it is a conflict.
   */
  lemma StatusFlowsUp(s: Syncer, k: Consts, p: Pod, v: Pod, o: SyncOracle)
    requires p.deletionTimestamp.None? && v.deletionTimestamp.None? && NodeInSync(p, v, o)
    requires o.conditions == Success(false)
    requires v.status != StrippedPod(k, p).status
    ensures var t := Sync(s, k, p, v, o);
      && t.calls[0] == UpdateVirtualStatus(v.(status := StrippedPod(k, p).status))
      && t.reply == Reply(false, 0, o.statusUpdateErr)
      && (Warn("SyncError") in t.calls <==> o.statusUpdateErr.Some? && o.statusUpdateErr != Some(Conflict))
  {
  }

  /**
   * With equal statuses, differing ephemeral containers are pushed to the physical pod,
   * and the spec update follows when the push and the pod-security check pass.
   */
  lemma EphemeralContainersPushed(s: Syncer, k: Consts, p: Pod, v: Pod, o: SyncOracle)
    requires p.deletionTimestamp.None? && v.deletionTimestamp.None? && NodeInSync(p, v, o)
    requires o.conditions == Success(false) && v.status == StrippedPod(k, p).status
    requires NeedsEphemeralSync(v.spec.ephemeralContainers, p.spec.ephemeralContainers)
    requires o.serviceListErr.None?
    ensures var t := Sync(s, k, p, v, o);
      && t.calls[0] == AddEphemeralContainers(Items(v.spec.ephemeralContainers))
      && (o.ephemeralErr.Some? ==> t == Trace([t.calls[0]], Reply(false, 0, o.ephemeralErr)))
      && (o.ephemeralErr.None? && (s.podSecurityStandard == "" || o.podSecurity == Success(true))
          && o.translateUpdate.Success? ==>
            t == Trace([t.calls[0], SyncDownUpdate(o.translateUpdate.value)], o.updateReply))
  {
  }
}
