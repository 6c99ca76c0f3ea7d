/**
 * The parts of the Kubernetes Pod schema that the pod syncer reads or writes,
 * the syncer's configuration, and the vocabulary in which a reconcile reports
 * what it did: the API writes it issued (Call) and what it returned to the
 * controller framework (Reply).
 */
module PodTypes {
  import opened Wrappers

  /** Errors returned by the two API clients and by the foreign collaborators. */
  datatype Error =
    | NotFound                  // kerrors.IsNotFound
    | Conflict                  // kerrors.IsConflict: an optimistic-concurrency clash
    | WaitTimeout               // the bind poll ran out of time
    | Failed(message: string)   // any other error

  /** A hostPath volume source; `hostPathType` is a pointer that may be nil. */
  datatype HostPathVolumeSource = HostPathVolumeSource(path: string, hostPathType: Option<string>)

  /** A volume; `hostPath` is nil for every other kind of volume source. */
  datatype Volume = Volume(name: string, hostPath: Option<HostPathVolumeSource>)

  datatype VolumeMount = VolumeMount(name: string, mountPath: string, readOnly: bool, subPath: string)

  datatype Container = Container(name: string, image: string, volumeMounts: seq<VolumeMount>)

  datatype EphemeralContainer = EphemeralContainer(name: string, image: string, targetContainerName: string)

  datatype Toleration = Toleration(key: string, operator: string, value: string, effect: string,
                                   tolerationSeconds: Option<int>)

  datatype PodSpec = PodSpec(
    nodeName: string,
    nodeSelector: map<string, string>,
    tolerations: seq<Toleration>,
    volumes: seq<Volume>,
    containers: seq<Container>,
    initContainers: seq<Container>,
    // nil is distinct from empty here: the ephemeral-container trigger tests for nil
    ephemeralContainers: Option<seq<EphemeralContainer>>,
    terminationGracePeriodSeconds: Option<int>)

  datatype ContainerStatus = ContainerStatus(name: string, image: string, ready: bool, restartCount: int)

  /** Semantic equality treats nil and empty slices alike, so the status lists are plain sequences. */
  datatype PodStatus = PodStatus(
    phase: string,
    startTime: Option<int>,
    initContainerStatuses: seq<ContainerStatus>,
    containerStatuses: seq<ContainerStatus>)

  /** A Pod; only the presence of the deletion timestamp matters, so it is an opaque number. */
  datatype Pod = Pod(
    uid: string,
    annotations: map<string, string>,
    deletionTimestamp: Option<int>,
    deletionGracePeriodSeconds: Option<int>,
    spec: PodSpec,
    status: PodStatus)

  /** The package-level constants the syncer uses, whose values are defined outside this model. */
  datatype Consts = Consts(
    podLoggingHostpathPath: string,
    logHostpathPath: string,
    physicalLogVolumeNameSuffix: string,
    physicalLogVolumeMountPath: string,
    hostsRewrittenAnnotation: string,
    hostsRewriteContainerName: string)

  /**
   * The configuration a podSyncer is built with. `nodeSelector` holds the match labels of the
   * parsed selector (nil when node-selector enforcement is off); the clients are not modelled.
   */
  datatype Syncer = Syncer(
    enableScheduler: bool,
    nodeSelector: Option<map<string, string>>,
    tolerations: seq<Toleration>,
    podSecurityStandard: string,
    virtualLogsPath: string)

  /** Default grace period in seconds (minimumGracePeriodInSeconds). */
  const MinimumGracePeriodInSeconds: int := 30

  /** The grace period of an immediate delete. */
  const ZeroGracePeriod: int := 0

  /** The retry-after of the create path when an explicit node is missing. */
  const NodeMissingRetrySeconds: nat := 15

  /** What a reconcile returns: ctrl.Result (Requeue, RequeueAfter) and the error. */
  datatype Reply = Reply(requeue: bool, requeueAfterSeconds: nat, err: Option<Error>)

  /** ctrl.Result{} with a nil error. */
  const Done: Reply := Reply(false, 0, None)

  /** ctrl.Result{Requeue: true} with a nil error. */
  const RequeueNow: Reply := Reply(true, 0, None)

  /** ctrl.Result{} together with whatever error the last call returned. */
  function Returned(err: Option<Error>): Reply {
    Reply(false, 0, err)
  }

  /** ctrl.Result{} with the last call's error, except that not-found counts as success. */
  function NotFoundTolerated(err: Option<Error>): Reply {
    if err == Some(NotFound) then Done else Reply(false, 0, err)
  }

  /** The writes and events a reconcile issues, in the order it issues them. */
  datatype Call =
    | DeleteVirtual(grace: Option<int>, uidPrecondition: Option<string>)
    | DeletePhysical(grace: Option<int>, uidPrecondition: Option<string>)
    | BindVirtual(node: string)
    | UpdateVirtualStatus(pod: Pod)
    | AddEphemeralContainers(containers: seq<EphemeralContainer>)
    | SyncDownCreate(pod: Pod)
    | SyncDownUpdate(updated: Option<Pod>)
    | Warn(reason: string)

  /** One reconcile: the calls it made and what it returned. */
  datatype Trace = Trace(calls: seq<Call>, reply: Reply)

  /** The items of a slice that may be nil. */
  function Items<T>(s: Option<seq<T>>): seq<T> {
    s.GetOr([])
  }
}
