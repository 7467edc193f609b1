# Runtime component operator: status, requeueing and reconciliation

The runtime component operator is a level-triggered Kubernetes controller: it looks at a
component again and again, compares what it finds with what the custom resource asks for,
and keeps what it learnt in the status of that resource. This project models the parts in
which state, time and failure meet, and proves what they keep over whole runs.

| file | what it models |
|---|---|
| `RequeueInterval.dfy` | the adaptive requeue interval: exponent loop, clamping, convergence |
| `StatusConditions.dfy` | the condition list: slots in a backing array, in-place sorting, pointers into it |
| `StatusEffects.dfy` | what a call does to the conditions, and which delay it asks for |
| `StatusMeaning.dfy` | what the conditions say after a call, word by word, and when it changes nothing |
| `ReconcilerStatus.dfy` | the code of ManageError, ManageSuccess and the status checks, proved against `StatusEffects` |
| `StatusRuns.dfy` | whole runs: the Ready condition, and backing off |
| `RuntimeOperation.dfy` | the one-shot operation: guard, Started, execute, Completed, doubling retry |
| `Workload.dfy` | Reconcile as a plan of API calls, any of which may fail |
| `NodeSelector.dfy` | rewriting the required node selector and the preferred terms |
| `Ports.dfy` | Service, network policy and container ports |
| `CommaLists.dfy`, `PullSecrets.dfy` | the list codec and the pull-secret bookkeeping |
| `TopologySpread.dfy` | merging topology spread constraints |
| `SortedStrings.dfy`, `SecretHash.dfy` | sorting map keys, canonical serialization of secrets |
| `Options.dfy` | values that may be nil |
| `Requeue.dfy` | nanoseconds, and the result of a pass |

How the model reads the code:

- Objects that the code updates are classes, and their methods are proved against functions
  on values; the theorems about runs are then about those functions. A pointer into the
  condition list is a backing array with an index, so it can be overwritten, moved by the
  sort, or left behind when the list outgrows its array.
- Time is a number of nanoseconds. One call of ManageError or ManageSuccess stamps every
  condition it changes with `now` and computes the interval at `later`. `float64` is exact
  `real`, and `math.Pow` is repeated multiplication.
- The interval's configuration is assumed to be integers with minimum >= 1, percentage >= 0,
  maximum >= minimum and maximum * increase < 2^31.
- Clients, discovery, pods and the fate of every write are inputs. A write of an operation's
  status takes effect only if it reaches the API server and is based on the latest version.
- A crash is a prefix: `Visited` lists the states a pass goes through, and a run may continue
  from any of them.

What turned out not to hold, with the exact condition under which it does:

- Ready can become True while Reconciled is False. It happens exactly when GetIngressInfo
  fails while the resources of a reconciled application are ready, because it then calls
  ManageError in the middle of the status check (`CallCoherence`, `ReadyIsCoherentExactly`).
- The command of an operation can run twice when the Started write, whose result is ignored,
  is lost (`LostWriteRunsTwice`). It runs at most once exactly if no two passes that attempt
  it are blind to every Started=True written before them (`AtMostOnceExactly`); when those
  passes read the latest version, exactly if Started=True landed before the second of them
  (`AtMostOnceWithFreshReads`).
- A Deployment can stand beside a Knative service that could not be deleted
  (`FailedKnativeDeleteIsTolerated`), and an Ingress beside a Knative service
  (`FailedIngressDeleteIsTolerated`). A pass that
  completes ends with what the spec asks for exactly if the one deletion whose error it
  tolerates took effect or had nothing to delete (`CompletedPassEnds`).
- A required node selector that matches nothing, because it has no terms or an empty one,
  matches something after the rewriting (`AddedMatches`, `BlanksAreTheOnlyException`).
- Service and network policy disagree about target ports given as non-empty text
  (`PortsAgree`).
- The memo of the topology merge holds indices into the source list, so a key that the user
  repeats overwrites a default of the operator (`RepeatedKeyOverwritesAnother`); without the
  defaults, two repeated keys make the code panic (`RepeatedKeysPanic`).
  `MergeIsRightExactly` and `PanicsExactly` say which inputs it gets right and on which it
  panics; it does get two lists without repeated keys right.
- A secret with two entries has the same serialization as one with a single entry whose value
  contains NUL bytes (`NulMakesCollisions`). Keys never contain any, because the API server
  refuses them, but values may. Reading the bytes back field by field recovers exactly the
  secrets without NUL bytes (`RoundTripExactly`). No other Secret has the same bytes exactly if
  there is no entry, or a single one whose value has no part between two NUL bytes that sorts
  after its key (`BytesAreUniqueExactly`); two Secrets without NUL bytes never share theirs.
- A pull secret stays in the service account for good when one of two writes is lost: it was
  added to the account but not recorded in the status, or struck from the record but not
  taken out of the account (`LostReferenceLeavesName`). `LooseExactly` says which names these
  are after any run.

Where code and documentation differ, the model follows the code. doc/user-guide-v1.adoc:344-346
derives the interval from a count of unchanged conditions; the code derives it from the time
since the latest transition. doc/user-guide-v1.adoc:436 says that the retry interval of an
operation doubles with each failed attempt; the code starts again when the message changes and
stops at six hours.

## Model

| member | source | states |
|---|---|---|
| RequeueInterval.ComputeInterval | utils/reconciler.go:302-337 | the interval is the minimum, multiplied by the increase as often as the elapsed time is divided by it until it falls to the minimum, cut off and clamped; the loop terminates and the int32 conversion cannot overflow |
| RequeueInterval.ChosenExactly | utils/reconciler.go:308-337 | the relation between elapsed time and interval, by explicit chains of divisions and multiplications, holds of the specified interval and of no other |
| RequeueInterval.ReduceFalls | utils/reconciler.go:322-325 | each floored division strictly decreases the iterate and loses less than one increase |
| RequeueInterval.StepsFromBelow | utils/reconciler.go:320-327 | the minimum grown one time fewer than the exponent is below the elapsed time |
| RequeueInterval.StepsFromAbove | utils/reconciler.go:320-327 | grown as often as the exponent says it reaches the elapsed time, up to what the floors lose |
| RequeueInterval.GrownBounds | utils/reconciler.go:326-327 | the grown interval lies between the minimum and increase * elapsed |
| RequeueInterval.IntervalBounds | utils/reconciler.go:308-337 | the interval lies in [minimum, maximum] and never exceeds increase * elapsed |
| RequeueInterval.IntervalKeepsUp | utils/reconciler.go:320-337 | below its maximum the interval is, up to the slack of the floors, at least as large a multiple of the minimum as the elapsed time calls for |
| RequeueInterval.IntervalMonotone | utils/reconciler.go:308-337 | a longer time since the latest transition never gives a shorter interval, across all branches |
| RequeueInterval.BackoffConverges | utils/reconciler.go:296-349 | over passes that are not early the delays never decrease, reach the maximum within ceil(max/min) passes and stay there |
| StatusConditions.BeforeIsStrictOrder | api/v1/runtimecomponent_types.go:1326-1334 | the comparator is a strict order exactly because no type is repeated, and it is the order Ready, Reconciled, ResourcesReady, Warning |
| StatusConditions.SortedByName | api/v1/runtimecomponent_types.go:1326-1334 | a sorted list has Ready first, and the others ascending by name |
| StatusConditions.SetStores | api/v1/runtimecomponent_types.go:1302-1323 | what is set is stored, with its message and reason; the time is now exactly if one of status, message and reason differs or the condition is new |
| StatusConditions.ViewHasEntries | api/v1/runtimecomponent_types.go:1292-1299 | the view of a list has exactly its entries |
| StatusConditions.SortSlice | api/v1/runtimecomponent_types.go:1325-1334 | sorting in place leaves one entry per type in order, keeps what the list means, and does not touch a sorted list |
| StatusConditions.RuntimeComponentStatus.GetCondition | api/v1/runtimecomponent_types.go:1292-1299 | the pointer it returns is into the current backing array, at the condition of that type |
| StatusConditions.RuntimeComponentStatus.SetCondition | api/v1/runtimecomponent_types.go:1302-1335 | the list stays sorted, exactly one condition is replaced or added, it is stamped iff it changed, and an unchanged condition leaves every slot alone |
| StatusConditions.RuntimeComponentStatus.UnsetCondition | api/v1/runtimecomponent_types.go:1337-1351 | keeps the entries before the match and one entry after it |
| StatusConditions.UnsetRemovesOnlyTheMatch | api/v1/runtimecomponent_types.go:1337-1351 | it removes exactly the match if and only if at most one entry follows it |
| StatusConditions.UnsetWarning | utils/reconciler.go:260-265 | at its call site the sort invariant makes it remove exactly Warning and nothing else |
| StatusConditions.RuntimeComponentStatus.GetLatestTransitionTime | api/v1/runtimecomponent_types.go:1225-1235 | the loop computes the specified latest time |
| StatusConditions.LatestIsGreatest | api/v1/runtimecomponent_types.go:1225-1235 | that time is the greatest transition time, nil only if all are nil |
| StatusEffects.TouchedMeansNow | api/v1/runtimecomponent_types.go:1313-1315 | if any condition was touched, the latest transition is now |
| StatusEffects.ErrorChangeIsTouched | utils/reconciler.go:352-390 | whatever ManageError changes is still visible at its end, for every condition type but Warning |
| StatusEffects.SuccessChangeIsTouched | utils/reconciler.go:425-446 | the same for ManageSuccess |
| StatusMeaning.ReconcileErrorSays | utils/reconciler.go:352-376 | after an error Reconciled is False with the message and reason of the error, Ready is False with its own, and ResourcesReady is untouched |
| StatusMeaning.ResourcesErrorSays | utils/reconciler.go:359-391 | after an error of the resources ResourcesReady carries it, and Ready and Reconciled are False |
| StatusMeaning.SuccessSays | utils/status.go:32-90 | what Reconciled, ResourcesReady, Ready and Warning say after a success, word by word |
| StatusMeaning.WarningsSay | utils/reconciler.go:240-266 | Warning carries the message of the first warning that applies, or is gone |
| StatusMeaning.ErrorIsQuietExactly | utils/reconciler.go:352-391 | an error changes nothing iff all that it would say is said already |
| StatusMeaning.SuccessIsQuietExactly | utils/reconciler.go:425-446 | a success changes nothing iff all that it would say is said already and GetIngressInfo does not fail |
| StatusMeaning.ErrorIsCalmExactly | utils/reconciler.go:352-391 | the change tracking of the specification agrees with the conditions before and after an error |
| StatusMeaning.SuccessIsCalmExactly | utils/reconciler.go:425-446 | the same for a success |
| StatusMeaning.BacksOffExactly | utils/reconciler.go:296-337 | the specified delay is the one that the whole seconds since the latest transition call for |
| ReconcilerStatus.UpdateReconcileInterval | utils/reconciler.go:296-349 | the interval follows from the latest transition time, and is shown in the status or hidden |
| ReconcilerStatus.ResetReconcileInterval | utils/reconciler.go:279-293 | returns the minimum and shows or hides it |
| ReconcilerStatus.AddStatusWarnings | utils/reconciler.go:240-266 | the first applicable warning is set, or Warning is removed and nothing else |
| ReconcilerStatus.SetIfChanged | utils/status.go:92-100 | writes exactly when the old condition says something else |
| ReconcilerStatus.CheckResourcesStatus | utils/status.go:75-90 | ResourcesReady says what was observed |
| ReconcilerStatus.ReportExternalEndpointStatus | utils/status.go:226-236 | a discovery failure re-enters ManageError, which always disturbs the status |
| ReconcilerStatus.CheckApplicationStatus | utils/status.go:32-73 | the conditions after the check; if nothing changed, the aliased old condition still reads like the new one |
| ReconcilerStatus.RecordResourcesError | utils/reconciler.go:377-388 | an error of the resources makes Ready and Reconciled False as specified |
| ReconcilerStatus.ManageError | utils/reconciler.go:352-422 | which conditions it leaves, with the message and reason of the error; an error that is not said already, or any condition added or changed, gives the minimum despite aliasing; otherwise the delay backs off towards the failure maximum |
| ReconcilerStatus.ManageSuccess | utils/reconciler.go:425-478 | the same for success; the delay backs off towards the success maximum if Ready is True and towards the failure maximum if not |
| StatusRuns.CallCoherence | utils/status.go:43-66 | after one call from any status Ready is True iff Reconciled and ResourcesReady are, except exactly when discovery fails while the resources are ready |
| StatusRuns.ReadyIsCoherent | utils/reconciler.go:352-478 | in every run from an empty status, with nested writes, lost writes and reads of any stored version, Ready is coherent in memory and in every version stored |
| StatusRuns.ReadyIsCoherentExactly | utils/reconciler.go:352-478 | Ready is coherent at every moment of a run iff discovery never fails in it while the resources are ready |
| StatusRuns.NestedIsCoherent | utils/reconciler.go:875-892 | what the nested ManageError writes in the middle of a status check is coherent |
| StatusRuns.NestedExactly | utils/reconciler.go:875-892 | when a status check makes that nested call, and what it shows |
| StatusRuns.DiscoveryFailureBreaksCoherence | utils/reconciler.go:875-892 | one failing discovery call makes Ready True beside Reconciled False |
| StatusRuns.SuccessBackoffConverges | utils/reconciler.go:451-466 | unchanged successes back off to the success maximum if Ready is True, else to the failure maximum, and stay there |
| StatusRuns.ErrorBackoffConverges | utils/reconciler.go:392-402 | unchanged errors do so when the interval is shown, and always ask for the minimum when it is hidden |
| StatusRuns.ReachedStatusesAreStamped | api/v1/runtimecomponent_types.go:1302-1335 | every reachable condition carries a transition time that is not in the future |
| RuntimeOperation.Instance.GetOperationCondition | api/v1/operations.go:32-39 | finds the first condition of the type |
| RuntimeOperation.Instance.SetOperationCondition | api/v1/operations.go:42-58 | replaces the condition of the type in place or appends it, with the transition time kept unless the status changes |
| RuntimeOperation.UpdatedFinds | api/v1/operations.go:42-58 | the condition of the type gets the new fields, its transition time changes exactly with its status, and no other condition is affected |
| RuntimeOperation.Reconcile | internal/controller/runtimeoperation_controller.go:56-160 | goes through exactly the specified states: guard, Started write, execution, Completed write |
| RuntimeOperation.PassWrites | internal/controller/runtimeoperation_controller.go:92-159 | what the version that a pass wrote last says about Started and Completed: a failed start, or a start and the outcome of the command |
| RuntimeOperation.CompletedTellsTheOutcome | internal/controller/runtimeoperation_controller.go:133-159 | in every run a Completed condition tells how some execution before it ended; Completed=True only without an error |
| RuntimeOperation.HandleStartErrorAndRequeue | internal/controller/runtimeoperation_controller.go:203-228 | records the failure and asks for the doubled, capped delay |
| RuntimeOperation.RoundExactly | internal/controller/runtimeoperation_controller.go:214-220 | the interval is rounded to the nearest second, halves away from zero |
| RuntimeOperation.AtMostOnce | internal/controller/runtimeoperation_controller.go:74-90 | over all runs with crashes, stale reads and lost writes, at most one execution follows a Started write that took effect |
| RuntimeOperation.AtMostOnceIfWritesTakeEffect | internal/controller/runtimeoperation_controller.go:123-131 | no execution is unguarded iff the Started write of every executing pass takes effect, and then the command runs at most once |
| RuntimeOperation.UnguardedExactly | internal/controller/runtimeoperation_controller.go:128-131 | the exact condition under which a pass runs the command without a durable Started |
| RuntimeOperation.BlindExactly | internal/controller/runtimeoperation_controller.go:74-90 | in any run a pass executes the command iff it attempts to and reads a version older than every Started=True that landed before |
| RuntimeOperation.AtMostOnceExactly | internal/controller/runtimeoperation_controller.go:74-159 | over all runs the command runs at most once iff no two attempts are blind |
| RuntimeOperation.AtMostOnceWithFreshReads | internal/controller/runtimeoperation_controller.go:74-159 | with fresh reads, iff Started=True landed, by either write, before the second attempt |
| RuntimeOperation.ExecutesAgainExactly | internal/controller/runtimeoperation_controller.go:123-159 | when the attempt after an executing pass executes again, for fresh and for stale reads |
| RuntimeOperation.LostWriteRunsTwice | internal/controller/runtimeoperation_controller.go:128-131 | ignoring the result of the Started write allows two executions |
| RuntimeOperation.StartedIsDurable | internal/controller/runtimeoperation_controller.go:83-90 | Started=True is never undone and Completed appears only together with it |
| RuntimeOperation.RetryDoubles | internal/controller/runtimeoperation_controller.go:214-226 | the n-th failure in a row with the same message is retried after min(2^n s, 6h) when retries are punctual |
| RuntimeOperation.RetryAtLeastDoubles | internal/controller/runtimeoperation_controller.go:214-226 | and after at least that much, but never more than 6h, when retries are late |
| Workload.Reconcile | internal/controller/runtimecomponent_controller.go:236-560 | makes the calls of its plan in order up to the first error that it does not tolerate |
| Workload.RunPass | internal/controller/runtimecomponent_controller.go:236-320 | the service account, the pull-secret check, and the choice between Knative and other workloads |
| Workload.ReconcileKnative | internal/controller/runtimecomponent_controller.go:265-311 | cleans up, then creates the Knative service, or fails without Knative support |
| Workload.ReconcileService | internal/controller/runtimecomponent_controller.go:322-460 | certificate, Service, network policy, bindings, workload and autoscaler, in this order |
| Workload.ReconcileWorkload | internal/controller/runtimecomponent_controller.go:373-440 | deletes the rival before it creates the selected workload |
| Workload.ReconcileExpose | internal/controller/runtimecomponent_controller.go:462-555 | Route or Ingress, then the ServiceMonitor, as far as the APIs are supported |
| Workload.PassPlanIsGuarded | internal/controller/runtimecomponent_controller.go:265-440 | no plan creates a workload before its rivals are known to be absent |
| Workload.GuardedMeansExclusive | internal/controller/runtimecomponent_controller.go:373-440 | such a plan never lets rivals coexist, whichever of its calls fail |
| Workload.ChecksComeFirst | internal/controller/runtimecomponent_controller.go:236-440 | a kind that appears during a pass does so only after each of its checks passed, so a failed check keeps it from being created |
| Workload.WorkloadsAreExclusive | internal/controller/runtimecomponent_controller.go:265-440 | in no state of any run do Deployment and StatefulSet coexist, and a Knative service is only created when both are absent |
| Workload.OnePassConverges | internal/controller/runtimecomponent_controller.go:265-555 | from any set of resources, an error-free pass ends with exactly what the spec asks for, kind by kind |
| Workload.ExactlyTheSelectedWorkload | internal/controller/runtimecomponent_controller.go:265-440 | which includes exactly the selected workload |
| Workload.SecondPassChangesNothing | internal/controller/runtimecomponent_controller.go:265-555 | another pass leaves a settled set alone at every moment, whichever calls fail, iff it does not replace a supported Route whose custom host was removed |
| Workload.CompletedPassEnds | internal/controller/runtimecomponent_controller.go:265-555 | a pass that completes, with or without tolerated errors, ends with what the spec asks for and the survivors of a tolerated deletion, and without any exactly if that deletion took effect or had nothing to delete |
| Workload.SelectedWorkloadExactly | internal/controller/runtimecomponent_controller.go:265-440 | it leaves exactly the selected workload iff no Knative service was there that could not be deleted or is no longer supported |
| Workload.FailedKnativeDeleteIsTolerated | internal/controller/runtimecomponent_controller.go:313-320 | a failed deletion of the Knative service does not end the pass, which leaves it beside the selected workload |
| Workload.FailedIngressDeleteIsTolerated | internal/controller/runtimecomponent_controller.go:281-283 | in Knative mode the same holds for the Ingress, which stays beside the Knative service |
| NodeSelector.CustomizeAffinity | utils/utils.go:476-485 | the shared node affinity ends with every requirement added to every term and the preferences appended |
| NodeSelector.CustomizeNodeLabels | utils/utils.go:497-541 | the label requirements, in key order, whatever the order in which the map is iterated |
| NodeSelector.CustomizeArchitectures | utils/utils.go:575-624 | the architecture requirement and the weighted preferences |
| NodeSelector.LabelsMean | utils/utils.go:526-538 | the added requirements are met iff each label of the node is one of the comma-separated values, blanks around it aside |
| NodeSelector.AddedMatches | utils/utils.go:514-540 | a node satisfies the rewritten selector iff it meets all that was added and satisfied the original or the original had no terms or an empty one |
| NodeSelector.RewritingPreservesMeaning | utils/utils.go:497-607 | so it satisfies the new selector iff it satisfied the old one, has the labels with listed values and a listed architecture |
| NodeSelector.BlanksAreTheOnlyException | utils/utils.go:514-540 | a node that meets what was added but not the original selector gets in iff the original had no terms or an empty one |
| NodeSelector.RewritingTwiceMeansOnce | utils/utils.go:498-538 | rewriting the shared selector again changes no meaning |
| NodeSelector.PreferencesAreOrdered | utils/utils.go:609-623 | original preferences stay a prefix, added weights fall strictly to 1 |
| Ports.ServiceSpec.InitializePorts | api/v1/runtimecomponent_types.go:1156-1162 | missing target ports default to the port |
| Ports.InitializedTargets | api/v1/runtimecomponent_types.go:1156-1162 | after that a missing target port is the port, a given one is kept, and nothing else changed |
| Ports.Service.Customize | utils/utils.go:205-272 | from any port list the Service ends with exactly 1 + n specified ports and no index is out of range |
| Ports.ServicePortsSay | utils/utils.go:205-272 | number, name, target and node port of each port of the Service |
| Ports.Service.Resize | utils/utils.go:236-245 | the two inner loops reach the wanted length and keep the common prefix |
| Ports.RepeatChangesNothing | utils/utils.go:205-272 | a repeated call changes no port |
| Ports.IngressRule.CustomizePorts | utils/utils.go:438-473 | the policy ends with exactly one port per Service port |
| Ports.Container.CustomizePrimaryPort | utils/utils.go:664-672 | the first container port is the primary target port |
| Ports.PortsAgree | utils/utils.go:231-257 | Service and policy agree position by position, exactly for integer and blank target ports, and the first position is the container's port |
| CommaLists.DecodeStringToList | utils/utils.go:2022-2032 | the loop computes the specified decoding |
| CommaLists.TrimSpaceExactly | utils/utils.go:2022-2032 | trimming takes away the outer blanks and nothing else |
| CommaLists.JoinOfSplit | utils/utils.go:2017-2032 | joining what was split gives the string back |
| CommaLists.DecodeOfPadded | utils/utils.go:2022-2032 | comma-free parts in any padding of blanks, joined by commas, decode to what is inside the padding |
| CommaLists.ListedExactly | utils/utils.go:527-530 | a value is among the trimmed parts iff it is listed, blanks around it aside |
| CommaLists.DecodedParts | utils/utils.go:2022-2032 | decoded parts are trimmed and comma-free, and never a single empty one |
| CommaLists.DecodeOfEncode | utils/utils.go:2017-2032 | decoding undoes encoding for lists of trimmed, comma-free parts, except exactly the single empty part |
| CommaLists.DecodeIsStable | utils/utils.go:2017-2032 | decode(encode(decode(s))) = decode(s) for every string |
| PullSecrets.CustomizeServiceAccount | utils/utils.go:867-927 | the account and the reference after the call, or the error that a missing secret gives |
| PullSecrets.Account.RemovePullSecrets | utils/utils.go:929-946 | removes the first occurrence of each name |
| PullSecrets.RemoveEachIsWithout | utils/utils.go:929-946 | on a list without repetition that removes the names and keeps the rest in order |
| PullSecrets.Set | utils/utils.go:2054-2062 | the loop computes the specified list |
| PullSecrets.UniqueElements | utils/utils.go:2054-2062 | which has the same elements and no repetition |
| PullSecrets.SetDiff | utils/utils.go:2065-2073 | the loop computes the specified list |
| PullSecrets.DifferenceElements | utils/utils.go:2065-2073 | which is the set difference |
| PullSecrets.BlankPartIsRefused | utils/utils.go:893-899 | a list with a blank part asks for the empty name and is always refused, because no Secret has it |
| PullSecrets.KeptBooks | utils/utils.go:871-924 | one call that finds every secret keeps what was in the account and is still asked for or unrecorded, in order, appends what is missing in the order asked for, and records exactly what is asked for |
| PullSecrets.ListedIsAsked | utils/utils.go:874-879 | what the custom resource lists is what is asked for, in order, whatever blanks surround it, and the reference decodes to it |
| PullSecrets.UniqueKeepsOrder | utils/utils.go:2054-2062 | the names stay in the order of their first appearance |
| PullSecrets.Cluster.ReconcileServiceAccount | internal/controller/runtimecomponent_controller.go:236-246 | what lasts of a pass in which a secret may be missing and either write may be lost |
| PullSecrets.BooksBalance | utils/utils.go:871-924 | over any run, whatever is missing or lost, nothing is repeated, the reference names exactly what was recorded last, and names never asked for stay in order |
| PullSecrets.LooseAfterPass | utils/utils.go:879-924 | a name comes loose, in the account and not in the reference, exactly when only one of the two writes takes effect on it |
| PullSecrets.LooseExactly | utils/utils.go:879-924 | over any run the names left for good are exactly those that were or came loose and have not been recorded since |
| PullSecrets.AtomicPassesLeaveNothing | utils/utils.go:871-924 | if both writes of a pass take effect or neither does, the account holds exactly what was recorded last and what was there and never asked for |
| PullSecrets.LostReferenceLeavesName | utils/utils.go:900-924 | one lost status write leaves a name behind |
| TopologySpread.MergeTopologySpreadConstraints | utils/utils.go:1329-1344 | the nested loops compute the specified merge, or panic exactly when it does |
| TopologySpread.MergeIsRightExactly | utils/utils.go:1335-1340 | for any number of lists without a repeated constraint, the merge is the override iff every remembered index that is read is right |
| TopologySpread.RightMemoRightMerge | utils/utils.go:1335-1340 | right indices suffice for all lists |
| TopologySpread.MergeIsOverride | utils/utils.go:749-756 | operator defaults overridden by user constraints: one constraint per key, in order of first appearance, with the later value |
| TopologySpread.RepeatedKeyOverwritesAnother | utils/utils.go:749-756 | a key that the user repeats overwrites the operator's default for zones |
| TopologySpread.PanicsExactly | utils/utils.go:1333-1341 | the index is out of range iff some key comes back whose remembered index is not below the number of different keys before it |
| TopologySpread.RepeatedKeysPanic | utils/utils.go:749-756 | without the operator's defaults two keys given twice each make the code panic |
| SortedStrings.AscendingListIsUnique | utils/hash.go:20-25 | sorted keys do not depend on the order of map iteration |
| SortedStrings.LessExactly | utils/hash.go:20-25 | the order is that of a dictionary |
| SecretHash.SerializeSecretData | utils/hash.go:19-35 | writes key NUL value NUL in ascending key order |
| SecretHash.BytesByKey | utils/hash.go:26-33 | the bytes, key by key: the smallest key, NUL, its value, NUL, then the bytes of the other entries |
| SecretHash.SerializationIsCanonical | utils/hash.go:19-35 | the bytes depend on the data only |
| SecretHash.ParseOfSerialize | utils/hash.go:26-33 | without NUL bytes a parser recovers the data |
| SecretHash.RoundTripExactly | utils/hash.go:26-33 | the parser recovers the data iff there are no NUL bytes |
| SecretHash.SerializationIsInjective | utils/hash.go:26-33 | so equal bytes mean equal secrets |
| SecretHash.NulMakesCollisions | utils/hash.go:26-33 | with NUL bytes in a value two different secrets have the same bytes |
| SecretHash.BytesAreUniqueExactly | utils/hash.go:19-35 | no other Secret (with keys free of NUL, as the API server demands) has the same bytes iff there is no entry, or just one whose value does not split into two entries |

## Left out

- Kubernetes, OpenShift, Knative, cert-manager and Prometheus clients, discovery, events, logging, pod exec: their answers are inputs.
- Blake3: only the bytes that are hashed are modelled.
- Floating-point rounding, truncation of timestamps to seconds in JSON, clock skew, asynchronous deletion and finalizers.
- common/config.go and the parsing of its values: the interval preconditions are assumed; loading and defaulting are single map updates.
- areReplicasReady and isKnativeReady: they compare the counts that a workload reports with the spec; what they report is an input of the status check.
- Status endpoints, image references and generations: nothing modelled here reads them.
- Condition types other than the four of the operator, for which the code panics.
- A ManageError or ManageSuccess call for the Warning type itself, which no caller makes: the conditions it leaves are modelled, but a Warning that it changes and then removes is no change that lasts.
- The early steps of Reconcile (configuration, validation, name conflicts, image streams) and the certificate, binding and monitoring checks: each is one step that may end the pass.
- The content of the created resources apart from ports, node affinity, pull secrets and topology constraints.
- Pod affinity, pod anti-affinity and the default anti-affinity terms: copied fields.
- Port names other than the given or default one, session affinity and labels of the Service.
- Other writers of an operation's status, of the service account or of the owned resources during a run.
- A pass that reads an outdated service account or pull-secret reference from the cache.
- Unicode encoding of strings: strings are compared by code point, which is the order of their UTF-8 bytes.
- SecretHash.SerializationIsInjective: assumes NUL-free keys and values, because secrets with NUL bytes in their values do collide.
