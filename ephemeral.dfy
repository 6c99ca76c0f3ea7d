/**
 * The ephemeral-container trigger (syncEphemeralContainers): the virtual pod's
 * ephemeral containers are pushed to the physical pod when the virtual list is
 * present and differs in length, or in name or image at some index.
 */
module EphemeralContainerSync {
  import opened Wrappers
  import opened PodTypes

  /** The two lists disagree on image or name at index i. */
  predicate DiffersAt(vs: seq<EphemeralContainer>, ps: seq<EphemeralContainer>, i: int)
    requires 0 <= i < |vs| && i < |ps|
  {
    vs[i].image != ps[i].image || vs[i].name != ps[i].name
  }

  /** When reconcile must push the virtual ephemeral containers, stated without a loop. */
  predicate NeedsEphemeralSync(virtual: Option<seq<EphemeralContainer>>, physical: Option<seq<EphemeralContainer>>) {
    && virtual.Some?
    && (|| |virtual.value| != |Items(physical)|
        || exists i :: 0 <= i < |virtual.value| && DiffersAt(virtual.value, Items(physical), i))
  }

  /** syncEphemeralContainers (lines 431-447). */
  method SyncEphemeralContainers(virtual: Option<seq<EphemeralContainer>>, physical: Option<seq<EphemeralContainer>>)
    returns (b: bool)
    ensures b == NeedsEphemeralSync(virtual, physical)
  {
    if virtual.None? {
      return false;
    }
    var vs, ps := virtual.value, Items(physical);
    if |vs| != |ps| {
      return true;
    }
    for i := 0 to |vs|
      invariant forall j :: 0 <= j < i ==> !DiffersAt(vs, ps, j)
    {
      if vs[i].image != ps[i].image {
        assert DiffersAt(vs, ps, i);
        return true;
      }
      if vs[i].name != ps[i].name {
        assert DiffersAt(vs, ps, i);
        return true;
      }
    }
    return false;
  }

  /** A nil virtual list never triggers, whatever the physical pod holds. */
  lemma NilNeverTriggers(physical: Option<seq<EphemeralContainer>>)
    ensures !NeedsEphemeralSync(None, physical)
  {
  }

  /**
   * Only names and images, index by index, matter: lists that agree on them (other fields
   * may differ) never trigger, and any disagreement does.
   */
  lemma TriggerIffNameOrImageDiffers(vs: seq<EphemeralContainer>, ps: seq<EphemeralContainer>)
    requires |vs| == |ps|
    ensures NeedsEphemeralSync(Some(vs), Some(ps))
        <==> exists i :: 0 <= i < |vs| && (vs[i].name != ps[i].name || vs[i].image != ps[i].image)
  {
    if exists i :: 0 <= i < |vs| && (vs[i].name != ps[i].name || vs[i].image != ps[i].image) {
      var i :| 0 <= i < |vs| && (vs[i].name != ps[i].name || vs[i].image != ps[i].image);
      assert DiffersAt(vs, ps, i);
    }
  }

  /**
   * An empty but present virtual list triggers as soon as the physical pod has any
   * ephemeral container: the guard tests for nil, not for emptiness.
   */
  lemma EmptyVirtualListTriggers(physical: seq<EphemeralContainer>)
    requires |physical| > 0
    ensures NeedsEphemeralSync(Some([]), Some(physical))
  {
  }
}
