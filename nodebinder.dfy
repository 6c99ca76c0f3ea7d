/**
 * The node binder (ensureNode and assignNodeToPod): mirrors the physical pod's
 * node assignment into the virtual cluster, which has no scheduler of its own.
 * The client calls are replaced by their results, passed in: the error of the
 * delete, of the node lookup and of the bind, and the successive observations
 * of the virtual pod made while waiting for the binding to show.
 */
module NodeBinder {
  import opened Wrappers
  import opened PodTypes

  /** One Get of the virtual pod during the wait for the binding. */
  datatype PollObservation = Observed(nodeName: string) | GetFailed(err: Error)

  /** What the wait's condition decides about one observation. */
  datatype PollVerdict = PollDone | PollAgain | PollAbort(err: Error)

  /** The condition closure of lines 505-517: a vanished pod or a set node name ends the wait. */
  function PollCondition(o: PollObservation): PollVerdict {
    match o
    case GetFailed(e) => if e == NotFound then PollDone else PollAbort(e)
    case Observed(n) => if n != "" then PollDone else PollAgain
  }

  /**
   * wait.PollImmediate over the observations made before its deadline: the first
   * observation whose verdict is not PollAgain decides, and running out of observations
   * is a timeout. The interval and the deadline themselves are not modelled.
   */
  function WaitForBinding(obs: seq<PollObservation>): Option<Error> {
    if obs == [] then Some(WaitTimeout)
    else
      match PollCondition(obs[0])
      case PollDone => None
      case PollAbort(e) => Some(e)
      case PollAgain => WaitForBinding(obs[1..])
  }

  /** No observation before index i ended the wait. */
  predicate StillWaiting(obs: seq<PollObservation>, i: int)
    requires 0 <= i <= |obs|
  {
    forall j :: 0 <= j < i ==> PollCondition(obs[j]) == PollAgain
  }

  /**
   * The wait succeeds exactly when some observation ends it with PollDone before any
   * other ends it; when every observation still shows an empty node name it times out.
   */
  lemma {:induction false} WaitForBindingOutcome(obs: seq<PollObservation>)
    ensures WaitForBinding(obs) == None
        <==> exists i :: 0 <= i < |obs| && PollCondition(obs[i]) == PollDone && StillWaiting(obs, i)
    ensures StillWaiting(obs, |obs|) ==> WaitForBinding(obs) == Some(WaitTimeout)
  {
    if obs != [] {
      WaitForBindingOutcome(obs[1..]);
      if PollCondition(obs[0]) == PollAgain {
        if WaitForBinding(obs) == None {
          var i :| 0 <= i < |obs[1..]| && PollCondition(obs[1..][i]) == PollDone && StillWaiting(obs[1..], i);
          assert PollCondition(obs[i + 1]) == PollDone && StillWaiting(obs, i + 1);
        }
        if exists i :: 0 <= i < |obs| && PollCondition(obs[i]) == PollDone && StillWaiting(obs, i) {
          var i :| 0 <= i < |obs| && PollCondition(obs[i]) == PollDone && StillWaiting(obs, i);
          assert i > 0;
          assert PollCondition(obs[1..][i - 1]) == PollDone && StillWaiting(obs[1..], i - 1);
        }
        if StillWaiting(obs, |obs|) {
          assert StillWaiting(obs[1..], |obs[1..]|);
        }
      } else {
        assert !StillWaiting(obs, |obs|);
        if PollCondition(obs[0]) == PollDone {
          assert StillWaiting(obs, 0);
        }
      }
    }
  }

  /** What ensureNode reports: the calls made, whether to requeue, and the error. */
  datatype NodeOutcome = NodeOutcome(calls: seq<Call>, requeue: bool, err: Option<Error>)

  /** assignNodeToPod (lines 486-519): bind, then wait for the binding to show. */
  function AssignNodeToPod(node: string, bindErr: Option<Error>, polls: seq<PollObservation>)
    : (r: (seq<Call>, Option<Error>))
  {
    if bindErr.Some? then ([BindVirtual(node), Warn("SyncError")], bindErr)
    else ([BindVirtual(node)], WaitForBinding(polls))
  }

  /** ensureNode (lines 449-484), called only when the physical pod has a node. */
  function EnsureNode(p: Pod, v: Pod, deleteErr: Option<Error>, lookupErr: Option<Error>,
                      bindErr: Option<Error>, polls: seq<PollObservation>): NodeOutcome
  {
    if v.spec.nodeName != p.spec.nodeName && v.spec.nodeName != "" then
      // Delete(ctx, vObj) without options: the pod's own grace period, no precondition
      NodeOutcome([DeleteVirtual(None, None)], deleteErr.None?, deleteErr)
    else if lookupErr.Some? then
      if lookupErr.value == NotFound then NodeOutcome([], true, None)
      else NodeOutcome([], false, lookupErr)
    else if v.spec.nodeName != p.spec.nodeName then
      var (calls, err) := AssignNodeToPod(p.spec.nodeName, bindErr, polls);
      NodeOutcome(calls, err.None?, err)
    else
      NodeOutcome([], false, None)
  }

  /**
   * The four outcomes of ensureNode: a divergent virtual node deletes the virtual pod and
   * requeues; a node missing from the virtual cluster requeues without any call; a node
   * that exists is bound exactly when the virtual pod has none yet; otherwise nothing
   * happens. An error never requeues.
   */
  lemma EnsureNodeOutcomes(p: Pod, v: Pod, deleteErr: Option<Error>, lookupErr: Option<Error>,
                           bindErr: Option<Error>, polls: seq<PollObservation>)
    requires p.spec.nodeName != ""
    ensures var n := EnsureNode(p, v, deleteErr, lookupErr, bindErr, polls);
      && (n.err.Some? ==> !n.requeue)
      && (v.spec.nodeName != "" && v.spec.nodeName != p.spec.nodeName ==>
            n.calls == [DeleteVirtual(None, None)] && n.err == deleteErr && n.requeue == deleteErr.None?)
      && (v.spec.nodeName in {"", p.spec.nodeName} && lookupErr == Some(NotFound) ==> n == NodeOutcome([], true, None))
      && ((exists node :: BindVirtual(node) in n.calls) <==> v.spec.nodeName == "" && lookupErr.None?)
      && (forall node :: BindVirtual(node) in n.calls ==> node == p.spec.nodeName)
      && (v.spec.nodeName == "" && lookupErr.None? ==>
            n.requeue == (bindErr.None? && WaitForBinding(polls).None?))
      && (v.spec.nodeName == p.spec.nodeName && lookupErr.None? ==> n == NodeOutcome([], false, None))
  {
  }
}
