# A model of the vcluster pod syncer

This project models the pod reconciliation logic of vcluster's pod syncer
(`pkg/controllers/resources/pods/syncer.go`) and proves properties of it in Dafny.
A *virtual* pod lives in the tenant's private API server. Its *physical* twin runs in the
shared host cluster. The syncer keeps the two consistent. It has two entry points:

- `SyncDown` runs when only the virtual pod exists. It builds the physical pod and creates it.
- `Sync` runs when both pods exist. It propagates deletion, binds the virtual pod to the
  physical node, copies status upward, pushes ephemeral containers, and updates the spec.

Every API call is replaced by its result, which the caller passes in as an *oracle* record
(`SyncOracle`, `DownOracle`). Each entry point returns a `Trace`: the writes and warning
events it issued, in order, plus the `Reply` it returns to the controller framework (requeue,
requeue-after, error).

Modules, one per component:

| file | module | models |
|---|---|---|
| wrappers.dfy | `Wrappers` | `Option` (nil pointers) and `Result` (value or error) |
| podtypes.dfy | `PodTypes` | the Pod schema fields the syncer touches, the syncer's configuration, the package constants, `Reply`, `Call`, `Trace` |
| hostpath.dfy | `HostPathRewriter` | `checkAndRewriteHostPath`, `addPhysicalLogPathToVolumesAndCorrectContainers` |
| ephemeral.dfy | `EphemeralContainerSync` | `syncEphemeralContainers` |
| strip.dfy | `HostRewriteStrip` | `stripHostRewriteContainer` |
| nodebinder.dfy | `NodeBinder` | `ensureNode`, `assignNodeToPod` and the stop condition of its wait |
| steadystate.dfy | `SteadyState` | `Sync` |
| createpath.dfy | `CreatePath` | `SyncDown` |
| config.dfy | `SyncerConfig` | the node-selector and toleration checks in `New` |

The source changes things in place in four operations: the host-path rewrite, `SyncDown`'s
toleration and node-selector updates, and the stripper's filtering loop. Each of these is a
method with the source's loops and their invariants. Each method is proved equal to a
closed-form function (`RewriteHostPaths`, `SyncDownPlan`, `StrippedPod`). The properties are
lemmas about those functions. The ephemeral-container comparison loop is also a method,
proved equal to a loop-free predicate. `Sync` and `ensureNode` are decision trees, so they
are pure functions.

Go details the model keeps:

- The `range` at line 240 visits only the original volumes. Volumes appended during the pass
  are not visited.
- `volume` is a copy, but it shares its `HostPath` pointer with the pod. So the test at
  line 260 sees the path written at line 254 (`RewrittenPath`).
- The inner `range` at line 287 visits the container's mounts as they are when the
  container is reached. That list includes mounts appended for earlier volumes.
  `StepContainers` proves that those mounts never match, because their names carry the
  suffix.

The rewrite is idempotent only under assumptions about the constants, which the source
defines elsewhere (`ReservedPathsDistinct`). The two reserved paths must differ. The tenant
log path, and that path followed by `/pods`, must differ from both reserved paths.

Behaviours of the code worth knowing, all kept as written:

- The ephemeral-container sync tests the virtual list for nil only, so a present but empty
  virtual list triggers as soon as the physical pod has any ephemeral container
  (`EmptyVirtualListTriggers`).
- The host-rewrite status entry is removed only from the physical status before the
  comparison; the virtual status is compared as it is.
- The node-name mismatch branch at line 349 can never be taken. It is kept as written, and
  `DeadBranchUnreachable` proves it unreachable.

## Model

| member | source | states |
|---|---|---|
| `HostPathRewriter.CheckAndRewriteHostPath` | pkg/controllers/resources/pods/syncer.go:236-268 | The Go loop, which visits only the original volumes and reads the path again through the shared pointer, computes exactly the closed form `RewriteHostPaths`: the original volumes rewritten in place, then the appended physical volumes, plus the corrected containers |
| `HostPathRewriter.AddPhysicalLogPathToVolumesAndCorrectContainers` | pkg/controllers/resources/pods/syncer.go:270-303 | Appends exactly one volume `<name>-<suffix>` at the pod-logging path with the given hostPath type. In every regular container, each mount of the volume gains one renamed copy at the physical mount path. Nothing else changes |
| `HostPathRewriter.PhysicalName` | pkg/controllers/resources/pods/syncer.go:273 | The physical twin's name extends the original name and ends in the suffix, so the guard of line 244 rejects it |
| `HostPathRewriter.PhysicalVolumes` | pkg/controllers/resources/pods/syncer.go:272-280 | Every appended volume's name carries the suffix and its path is the reserved pod-logging path; at most one is appended per original volume |
| `HostPathRewriter.PhysicalMounts` | pkg/controllers/resources/pods/syncer.go:287-297 | Every mount appended for a volume is named `<name>-<suffix>` and mounted at the physical mount path |
| `HostPathRewriter.AddedMounts` | pkg/controllers/resources/pods/syncer.go:285-298 | Every mount a pass appends carries the suffix and the physical mount path |
| `HostPathRewriter.Triggering` | pkg/controllers/resources/pods/syncer.go:241-244 | The triggering volumes are exactly the original hostPath volumes at the pod-logging path whose names lack the suffix |
| `HostPathRewriter.MountsOf` | pkg/controllers/resources/pods/syncer.go:287-288 | Selects exactly the mounts with the volume's name |
| `HostPathRewriter.StepContainers` | pkg/controllers/resources/pods/syncer.go:285-298 | The inner scan also sees mounts appended for earlier volumes, but they never match, so each visit adds copies of original mounts only |
| `HostPathRewriter.PhysicalMountsAppend` | pkg/controllers/resources/pods/syncer.go:287-297 | Scanning two mount lists one after the other gives the copies of the first list, then those of the second |
| `HostPathRewriter.RewrittenPaths` | pkg/controllers/resources/pods/syncer.go:240-262 | A triggering volume is repointed to `<logs>/pods`. A volume at the generic log path is repointed to `<logs>`. Non-hostPath volumes and other paths are unchanged, and names and types never change |
| `HostPathRewriter.PhysicalVolumesPerTrigger` | pkg/controllers/resources/pods/syncer.go:272-280 | Exactly one physical volume is appended per triggering volume, in order, with that volume's hostPath type |
| `HostPathRewriter.RewrittenVolumeList` | pkg/controllers/resources/pods/syncer.go:240-280 | The result's volume list is the original list rewritten in place, followed by one physical twin per triggering volume |
| `HostPathRewriter.PhysicalMountsPerMount` | pkg/controllers/resources/pods/syncer.go:287-297 | Each mount of the volume gains exactly one copy, renamed and at the physical mount path, in order |
| `HostPathRewriter.AddedMountsSound` | pkg/controllers/resources/pods/syncer.go:285-298 | Every appended mount is the physical copy of an existing mount of some triggering volume |
| `HostPathRewriter.AddedMountsComplete` | pkg/controllers/resources/pods/syncer.go:285-298 | Every existing mount of every triggering volume gains its physical copy |
| `HostPathRewriter.RewrittenContainers` | pkg/controllers/resources/pods/syncer.go:282-300 | Regular containers keep their count, names, images and existing mounts, which stay a prefix. Only suffixed mounts at the physical path are appended. Init containers, node name, selector, tolerations and ephemeral containers are untouched |
| `HostPathRewriter.RewrittenVolumeSettled` | pkg/controllers/resources/pods/syncer.go:242-262 | Under the distinctness assumptions, a rewritten volume neither triggers nor changes when rewritten again |
| `HostPathRewriter.PhysicalVolumeSettled` | pkg/controllers/resources/pods/syncer.go:242-280 | An appended volume is never rewritten or dual-mounted again, because of the suffix guard |
| `HostPathRewriter.SettledIsFixedPoint` | pkg/controllers/resources/pods/syncer.go:236-303 | When no volume triggers or changes, the rewrite returns the pod spec unchanged |
| `HostPathRewriter.RewriteIdempotent` | pkg/controllers/resources/pods/syncer.go:236-303 | Applying the rewrite to its own output changes nothing |
| `EphemeralContainerSync.SyncEphemeralContainers` | pkg/controllers/resources/pods/syncer.go:431-447 | Returns false for a nil virtual list. Otherwise it returns true iff the lengths differ or some index has a different image or name |
| `EphemeralContainerSync.NilNeverTriggers` | pkg/controllers/resources/pods/syncer.go:432-434 | A nil virtual list never triggers |
| `EphemeralContainerSync.TriggerIffNameOrImageDiffers` | pkg/controllers/resources/pods/syncer.go:438-446 | For lists of equal length, sync triggers iff some index differs in name or image; other fields do not matter |
| `EphemeralContainerSync.EmptyVirtualListTriggers` | pkg/controllers/resources/pods/syncer.go:432-437 | An empty, non-nil virtual list triggers as soon as the physical pod has an ephemeral container |
| `HostRewriteStrip.StripHostRewriteContainer` | pkg/controllers/resources/pods/syncer.go:521-538 | The filtering loop computes `StrippedPod`: the pod itself unless the annotation reads "true", else a copy whose init-container statuses lack the rewrite container's entries |
| `HostRewriteStrip.WithoutContainer` | pkg/controllers/resources/pods/syncer.go:527-535 | The kept statuses are exactly the original ones with a different name |
| `HostRewriteStrip.WithoutContainerAppend` | pkg/controllers/resources/pods/syncer.go:529-534 | Filtering distributes over concatenation, so kept entries stay in their original order |
| `HostRewriteStrip.WithoutContainerAbsent` | pkg/controllers/resources/pods/syncer.go:529-534 | A list without the rewrite container's entry, the empty list included, is returned unchanged |
| `HostRewriteStrip.StrippedPodEffect` | pkg/controllers/resources/pods/syncer.go:521-538 | Without the annotation the pod is unchanged. In every case the result equals the input except for the init-container status list. With the annotation that list loses exactly the rewrite container's entries |
| `HostRewriteStrip.StripIdempotent` | pkg/controllers/resources/pods/syncer.go:521-538 | Stripping twice gives the same result as stripping once |
| `NodeBinder.WaitForBindingOutcome` | pkg/controllers/resources/pods/syncer.go:505-517 | The bind wait succeeds iff some observation shows the pod gone or with a node before any other observation ends the wait. Observations that all show an empty node name time out |
| `NodeBinder.EnsureNodeOutcomes` | pkg/controllers/resources/pods/syncer.go:449-484 | A divergent virtual node deletes the virtual pod, and a successful delete requeues. A missing node requeues with no call, whether the virtual node is empty or the same. A bind to the physical node happens iff the node exists and the virtual node is empty. Equal nodes cause no action, and an error never requeues |
| `SteadyState.PhysicalTerminating` | pkg/controllers/resources/pods/syncer.go:310-328 | A terminating physical pod issues at most one call, a virtual delete. The grace is the virtual termination grace (30 when unset), or the physical deletion grace with the virtual UID as precondition when grace periods differ. Equal graces issue no call, and the cycle never requeues |
| `SteadyState.VirtualTerminating` | pkg/controllers/resources/pods/syncer.go:329-339 | When only the virtual pod is terminating, the physical pod is deleted with the virtual deletion grace and the physical UID as precondition; not-found counts as success |
| `SteadyState.BindOnlyToExistingNode` | pkg/controllers/resources/pods/syncer.go:342-348 | A bind is issued only for live pods, to the physical node, only when that node exists in the virtual cluster and the virtual node name is empty |
| `SteadyState.NoBindAfterEnsureNode` | pkg/controllers/resources/pods/syncer.go:360-428 | The status, ephemeral and spec steps never bind |
| `SteadyState.BindWhenNodeExists` | pkg/controllers/resources/pods/syncer.go:474-481 | An unbound virtual pod whose physical node exists is bound first, and the cycle requeues once the binding shows |
| `SteadyState.NodeMissingOrDivergent` | pkg/controllers/resources/pods/syncer.go:450-472 | A missing node requeues with no call. A different non-empty virtual node deletes the virtual pod, then requeues |
| `SteadyState.DeadBranchUnreachable` | pkg/controllers/resources/pods/syncer.go:342-358 | On live pods no delete with an explicit grace period is issued, so the branch at line 349 is never taken |
| `SteadyState.StatusFlowsUp` | pkg/controllers/resources/pods/syncer.go:360-386 | The stripped physical status is copied to the virtual pod when it differs, and the write ends the cycle. A failed write is returned, with a warning unless it is a conflict |
| `SteadyState.EphemeralContainersPushed` | pkg/controllers/resources/pods/syncer.go:388-428 | Differing ephemeral containers are pushed. On success, and after the pod-security check, the spec update follows |
| `CreatePath.SyncDown` | pkg/controllers/resources/pods/syncer.go:161-234 | The step-by-step create path, with its toleration and node-selector loops, computes exactly `SyncDownPlan` |
| `CreatePath.OrphanDeleted` | pkg/controllers/resources/pods/syncer.go:163-176 | A terminating or already-started virtual pod is deleted with grace 0 and nothing is created; not-found counts as success |
| `CreatePath.CreatedPodTolerations` | pkg/controllers/resources/pods/syncer.go:194-197 | A created pod has its own tolerations followed by the configured ones, in order |
| `CreatePath.CreatedPodSelector` | pkg/controllers/resources/pods/syncer.go:199-210 | With a selector and no node name, the created pod's node selector is the union of its own and the configured labels, with the configured ones winning |
| `CreatePath.NodeMissingRetries` | pkg/controllers/resources/pods/syncer.go:211-221 | With a selector and an explicit node missing from the virtual cluster, it records a warning and retries after 15 s without creating the pod |
| `CreatePath.SchedulerWaitsForNode` | pkg/controllers/resources/pods/syncer.go:228-231 | With the scheduler enabled, a pod without a node name is not created |
| `CreatePath.CreatedPodRewriteSettled` | pkg/controllers/resources/pods/syncer.go:225-226 | A created pod is a fixed point of the host-path rewrite |
| `CreatePath.PlainPodCreated` | pkg/controllers/resources/pods/syncer.go:188-233 | With security, selector and scheduler off and no volume to rewrite, the pod is created as translated, with the tolerations appended |
| `SyncerConfig.NodeSelectorPolicy` | pkg/controllers/resources/pods/syncer.go:52-63 | A selector is in force only when enforcement is on and the string is non-empty. Under enforcement, New succeeds iff the selector parses, has no match expressions and has at least one label; the policy then holds exactly those labels. Otherwise it fails |
| `SyncerConfig.ParseTolerations` | pkg/controllers/resources/pods/syncer.go:65-74 | The loop keeps exactly the tolerations that parsed, in order |
| `SyncerConfig.KeptExactly` | pkg/controllers/resources/pods/syncer.go:65-74 | A toleration is kept iff it parsed; a failed parse is dropped, not reported |

## Left out

- Client I/O: the virtual and physical clients' Get, Delete, Status().Update and Bind, and
  the pod List. Each call's result is an oracle input. Writes and warning events appear in
  the returned trace.
- The interval and deadline of `wait.PollImmediate` (50 ms, 2 s). The wait is modelled over
  the finite sequence of observations made before the deadline.
- NodeBinder.WaitForBinding: gives a timeout for an empty observation sequence, which cannot
  occur, because `wait.PollImmediate` always evaluates the condition once before its deadline
  can expire. The lemmas about the wait hold for every sequence, so they cover that case too.
- `New`'s client and translator construction, and the formatting of `VirtualLogsPathTemplate`.
  The tenant log path is a parameter of the syncer. Only the node-selector and toleration
  checks are modelled, over abstract parse results.
- `ModifyController`'s namespace-watch handler and `RegisterIndices`: event-queue plumbing
  around a List call.
- Foreign collaborators: `translate`, `translateUpdate`, `UpdateConditions`,
  `AddEphemeralContainer`, `isPodSecurityStandardsValid`, `getK8sIpDnsIpServiceList`,
  `TranslateServicesToEnvironmentVariables`, `TranslateContainerEnv`, `SyncDownCreate` and
  `SyncDownUpdate`. Only their results are modelled. Any change they make to the pods they
  are given is not. Environment variables of ephemeral containers are not modelled.
- Logging, `PrintChanges`, and the event messages. A warning event is recorded only by its
  reason.
- `equality.Semantic.DeepEqual` is equality of the status value, with nil and empty slices
  alike.
- Update in place: the rewriter and the stripper return the new pod instead of mutating the
  caller's. Every caller uses the returned pod. Two volumes sharing one hostPath struct are
  not modelled; each volume owns its source, as in a decoded pod. The rewriter works on the
  pod spec, the only part it touches.
- A nil node-selector map and an empty one are not distinguished.
- Pod fields the syncer never reads, volume sources other than hostPath, and mount fields
  other than name, mount path, read-only and sub-path.
- Grace periods are Go `int64` values that the syncer only copies, never computes with, so
  they are unbounded integers here.
- HostPathRewriter.RewriteIdempotent: proved only under `ReservedPathsDistinct`, an
  assumption about constants defined outside this file. The source does not check it.
- HostPathRewriter.RewrittenPaths: stated under the same assumption. Without it, a path
  rewritten to `<logs>/pods` could be rewritten again at line 261. The model's
  `RewrittenPath` still follows the code in that case.
- HostPathRewriter.RewrittenVolumeSettled: stated under the same assumption.
