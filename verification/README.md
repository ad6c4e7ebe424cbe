# ClusterLoader2 decision logic in Dafny

A model of the parts of ClusterLoader2 that decide, from event streams and samples,
whether a cluster has reached the wanted state and which numbers are reported, plus
the GKE version selection of the test infrastructure.  `dafny verify dfyconfig.toml`
checks the whole project.

## How the model is built

- **Objects the source updates in place** are classes (`Indexer`, `Measurement`,
  `ObjectTransitionTimes`, `HistogramVec`, `SingleHistogram`, `Factory`, `Metrics`); loops are
  methods with invariants; the node filter works on an array.  Each is tied to a function or
  predicate of its inputs, about which the lemmas are stated.
- **Concurrency** is a state machine whose atomic steps are the accesses to shared state; a
  run is any finite sequence of enabled steps, so every interleaving is covered.
  - `ControlledPodsIndexer`: pod-store changes, their queued notifications, replica-set events, and
    the three effects of the locked clearing procedure are separate steps.  Informer guarantees
    are step guards: a replica set is added once, updated and deleted only while live, keeps its
    non-empty UID, and deletions carry the final object.
  - `ControlledPodsBarrier`: one in-order worker and the completion of each checker.  A log is an
    initial batch of additions followed by watch events of increasing versions; the LIST is the
    cluster at some point of that log.  An update keeps the UID; any event may fail spec comparison.
  - `ControlledPodsGather`: the two machines above and the waits of the checkers together; a checker
    gets its status from what `WaitForPods` promises about the turns its wait took, and every
    listing is an answer of the index at that moment.
  - `ServiceCreation`: any number of workers plus the poller, one table access per step.
  - `NodeKiller`: rounds, one goroutine per picked node, and start/stop pairs sharing the killed set.
  - `ApiAvailability`: the poll goroutine and the control actions, with starts that fail and
    restarts; taking a channel message and setting the flag are separate steps.
- **Libraries** appear through what they promise: `sort` returns some sorted permutation, map
  iteration yields keys in any order, `rand` and time are parameters, `strconv.ParseFloat` is an
  arbitrary partial function.  The regular expression for versions is a matcher of its own.
- **Numbers**: durations are integer nanoseconds; `math.Ceil(n*p/100)` and rates are exact.

## Where a promise fails

- A pod that reaches the store after its replica set was dropped is missing from the answer
  (`LateAdoptionLosesPod`); the exact condition is `AnswerExactIffNoOrphan` for one answer and
  `AnswersExactIffNothingLost`, on the steps, for a whole run.
- An object created after the LIST can hide a listed object that never ran
  (`LateCreationCanFakeSuccess`); the exact condition is `SuccessSoundIff`, and events that add no
  unlisted key suffice (`SuccessSound`).
- The handler's comment promises that the count catches every handler error.  It does catch
  checkers that could not be created (`SuccessSound`), but not failed spec comparisons: a checker
  can be for an outdated spec (`FailedComparisonGoesUnnoticed`), exactly when the last event of the
  key carries another spec than the last one seen as a change (`SpecIsCurrentIff`), hence never if no
  comparison failed on that key (`SuccessSound`); and a failed comparison on a deletion can hide an
  object that never ran (`FailedDeletionFakesSuccess`), exactly when an unlisted key runs
  (`SuccessSoundIff`).
- Pods are diffed by name alone, so a pod that disappears while its namesake in another namespace
  stays is not reported (`NamesakeHidesDeletion`); the exact conditions are
  `DeletedAndAddedExactIff` and `OnRealNodesNamesakesDecide`.
- A shared rate limiter keeps its first parameters across `Init` (`StaleLimiterAfterReinit`); the
  exact condition, and that the load can still run, is `CreatedLoadCanRun`.  With the single
  `Init` the program makes this cannot happen (`ValidatedNameIsCreated`).
- The availability measurement can drop requests (`UnpauseDroppedIff`, `PauseDroppedIff`) or hold
  its lock for good; the exact condition is `RequestReturnsIff`.  The flag is read without
  synchronisation (`DroppedUnpauseAndBlockingPause`, `DroppedPauseAndBlockingUnpause`), and a start
  that fails still marks the measurement running (`FailedStartBlocksPause`,
  `FailedRestartBlocksUnpause`).
- `countErrorMargin` is documented as waiting for the number of pods to be between desired minus
  margin and desired; that range is necessary and not sufficient (`RangeIsNotEnough`); the exact
  condition is `ExitIffInRangeAndBounded`.

## Model

| member | source | states |
|---|---|---|
| `ControlledPodsIndexer.Indexer.ClearRSDataIfPossibleLocked` | clusterloader2/pkg/measurement/util/controlled_pods_indexer.go:170-192 | Under the lock, a UID leaves the pending map and the index exactly when it is pending and no stored pod names it; otherwise nothing changes. |
| `ControlledPodsIndexer.Indexer.OnPodUpdate` | clusterloader2/pkg/measurement/util/controlled_pods_indexer.go:93-105 | An update clears the old owner only when the controller changed. |
| `ControlledPodsIndexer.Indexer.OnPodDelete` | clusterloader2/pkg/measurement/util/controlled_pods_indexer.go:106-114 | A deletion offers the final owner for clearing. |
| `ControlledPodsIndexer.Indexer.OnReplicaSetUpsert` | clusterloader2/pkg/measurement/util/controlled_pods_indexer.go:122-131 | Add and update overwrite the entry of that UID and leave the rest. |
| `ControlledPodsIndexer.Indexer.OnReplicaSetDelete` | clusterloader2/pkg/measurement/util/controlled_pods_indexer.go:132-140 | A deleted replica set becomes pending and is dropped at once if no pod names it. |
| `ControlledPodsIndexer.Indexer.AppendPodsControlledBy` | clusterloader2/pkg/measurement/util/controlled_pods_indexer.go:251-265 | Appends each pod of one controller once, in any order. |
| `ControlledPodsIndexer.Indexer.PodsControlledBy` | clusterloader2/pkg/measurement/util/controlled_pods_indexer.go:212-249 | Returns every pod the controller owns exactly once: a two-hop join for deployments, a direct match otherwise. |
| `ControlledPodsIndexer.IndexIsHistory` | clusterloader2/pkg/measurement/util/controlled_pods_indexer.go:91-192 | After any sequence of store changes and handler calls a replica set is held as last added or updated if and only if it was not, once deleted, reconsidered while no stored pod named it. |
| `ControlledPodsIndexer.LiveAndNeededAreHeld` | clusterloader2/pkg/measurement/util/controlled_pods_indexer.go:48-53 | A replica set never deleted, or deleted but named by a stored pod ever since, is held with its last value. |
| `ControlledPodsIndexer.StoreIsHistory` | clusterloader2/pkg/measurement/util/controlled_pods_indexer.go:82-88 | The pod store holds under each key what was last stored there and not removed. |
| `ControlledPodsIndexer.AnswersAreReferenceMinusDropped` | clusterloader2/pkg/measurement/util/controlled_pods_indexer.go:91-142 | In every state of every interleaving, the answer is that of an index that never forgets, minus pods whose replica set was dropped. |
| `ControlledPodsIndexer.RefinesNeverForgetting` | clusterloader2/pkg/measurement/util/controlled_pods_indexer.go:170-265 | If no pod adopts a replica set after it was seen empty, every answer in every reachable state equals the never-forgetting answer. |
| `ControlledPodsIndexer.AnswerExactIffNoOrphan` | clusterloader2/pkg/measurement/util/controlled_pods_indexer.go:212-265 | A deployment is answered exactly if and only if no stored pod names a dropped replica set of it. |
| `ControlledPodsIndexer.AnswersExactIffNothingLost` | clusterloader2/pkg/measurement/util/controlled_pods_indexer.go:91-192 | All answers along a run are exact if and only if no step drops a controlled replica set that a stored pod names and none stores a pod that names a dropped one. |
| `ControlledPodsIndexer.LateAdoptionLosesPod` | clusterloader2/pkg/measurement/util/controlled_pods_indexer.go:132-140 | Witness that the answer is short when a pod reaches the store after its replica set was dropped. |
| `ControlledPodsIndexer.NoLeak` | clusterloader2/pkg/measurement/util/controlled_pods_indexer.go:48-53 | Index keys are always live + pending + the one being dropped, and once notifications are drained every deleted replica set still indexed owns a pod. |
| `ControlledPodsIndexer.OverlappingQuery` | clusterloader2/pkg/measurement/util/controlled_pods_indexer.go:222-248 | A query overlapping any steps returns a pod stored throughout exactly once if the never-forgetting index owns it at the start and not otherwise, and nothing that was never stored. |
| `ControlledPodsIndexer.StepKeepsIndexInv` | clusterloader2/pkg/measurement/util/controlled_pods_indexer.go:91-142 | Every step keeps the index equal to the reference index off the dropped UIDs. |
| `ControlledPodsIndexer.StepKeepsNoLeak` | clusterloader2/pkg/measurement/util/controlled_pods_indexer.go:93-140 | Every step keeps a reason to look again at each pending replica set: a pod, a queued notification, or the lock holder. |
| `ControlledPodsIndexer.SeenIsLastReported` | clusterloader2/pkg/measurement/util/controlled_pods_indexer.go:122-131 | The never-forgetting index holds what the informer last reported of each replica set. |
| `ControlledPodsIndexer.CallsAreRuns` | clusterloader2/pkg/measurement/util/controlled_pods_indexer.go:91-192 | Uninterrupted, the steps of any call the informers can make exist and leave the stores as the indexer object does. |
| `ControlledPodsBarrier.Measurement.HandleObject` | clusterloader2/pkg/measurement/common/wait_for_controlled_pods.go:410-456 | One event: the checker is replaced only on a spec change while started, and keys and version are updated on every path. |
| `ControlledPodsBarrier.Measurement.DeleteObjectLocked` | clusterloader2/pkg/measurement/common/wait_for_controlled_pods.go:476-486 | Removes the checker of the old object, if there is one. |
| `ControlledPodsBarrier.Measurement.HandleObjectLocked` | clusterloader2/pkg/measurement/common/wait_for_controlled_pods.go:458-474 | Registers a fresh checker for the handled object, for deletion when the new object is absent; nothing if creation fails. |
| `ControlledPodsBarrier.Measurement.UpdateCacheLocked` | clusterloader2/pkg/measurement/common/wait_for_controlled_pods.go:488-518 | Old key out, new key in, version raised by both objects. |
| `ControlledPodsBarrier.Measurement.UpdateOpResourceVersionLocked` | clusterloader2/pkg/measurement/common/wait_for_controlled_pods.go:520-529 | The handled version is the maximum seen. |
| `ControlledPodsBarrier.EventEffect` | clusterloader2/pkg/measurement/common/wait_for_controlled_pods.go:410-518 | What an event does to keys and checkers, on its own specs: an update with the same or an unreadable spec leaves the checkers alone, another spec replaces the checker, a deletion gets one for the deletion. |
| `ControlledPodsBarrier.FinalStatusStays` | clusterloader2/pkg/measurement/common/wait_for_controlled_pods.go:442-456 | In every run a final status stays until an event of its key carries another readable spec, or adds or deletes it. |
| `ControlledPodsBarrier.ObjectKeysAndMaxVersion` | clusterloader2/pkg/measurement/common/wait_for_controlled_pods.go:533-565 | Keys of the listed objects and a version that bounds all of them and is attained. |
| `ControlledPodsBarrier.Gather` | clusterloader2/pkg/measurement/common/wait_for_controlled_pods.go:322-386 | With an unfinished checker the unknown-status error; otherwise late checkers, then a wrong number, then failed ones are reported with their exact counts, and success if there are none. |
| `ControlledPodsBarrier.OpVersionIsLeastBound` | clusterloader2/pkg/measurement/common/wait_for_controlled_pods.go:488-529 | The folded version is the least bound of the versions of the handled events. |
| `ControlledPodsBarrier.BarrierSound` | clusterloader2/pkg/measurement/common/wait_for_controlled_pods.go:297-320 | Barrier open with the LIST keys and version: the event carrying each listed object was handled, at the listed version or later. |
| `ControlledPodsBarrier.CarriedBefore` | clusterloader2/pkg/measurement/common/wait_for_controlled_pods.go:297-305 | The event that carries a listed object, still live, is among the handled ones once the version is reached. |
| `ControlledPodsBarrier.VersionsGrow` | clusterloader2/pkg/measurement/common/wait_for_controlled_pods.go:297-305 | From then on the live object has at least the listed version. |
| `ControlledPodsBarrier.BarrierOpensAtList` | clusterloader2/pkg/measurement/common/wait_for_controlled_pods.go:313-317 | In every state that has handled exactly the events up to the LIST, keys and version match and the barrier is open. |
| `ControlledPodsBarrier.StepKeepsInv` | clusterloader2/pkg/measurement/common/wait_for_controlled_pods.go:410-518 | Every event and every checker completion keeps keys and version equal to those of the cluster and, unless a deletion failed to be compared, non-deletion checkers only on present objects, for the last change the handler saw. |
| `ControlledPodsBarrier.SuccessSound` | clusterloader2/pkg/measurement/common/wait_for_controlled_pods.go:286-386 | If the events after the barrier add no unlisted key and no deletion failed to be compared, success means every listed key has a running checker for the present object as of the last change the handler saw, at the listed version or later; its spec is the present one if no comparison failed on that key. |
| `ControlledPodsBarrier.SpecIsCurrentIff` | clusterloader2/pkg/measurement/common/wait_for_controlled_pods.go:410-456 | A checker is for the present spec if and only if the last handled event of its key carries the spec of the last one seen as a change. |
| `ControlledPodsBarrier.ComparedMeansDetected` | clusterloader2/pkg/measurement/common/wait_for_controlled_pods.go:437-445 | If no comparison failed on the handled events of a key, the last change seen gave its present spec. |
| `ControlledPodsBarrier.CountGivesRunning` | clusterloader2/pkg/measurement/common/wait_for_controlled_pods.go:371-385 | As many running checkers as listed keys and no live key beyond them: every listed key runs and is live. |
| `ControlledPodsBarrier.SuccessSoundIff` | clusterloader2/pkg/measurement/common/wait_for_controlled_pods.go:371-385 | A successful count is sound if and only if no unlisted key has a running checker. |
| `ControlledPodsBarrier.LateCreationCanFakeSuccess` | clusterloader2/pkg/measurement/common/wait_for_controlled_pods.go:306-308 | Witness for the stated limitation: an object created after LIST makes the count right although a listed object never ran. |
| `ControlledPodsBarrier.FailedComparisonGoesUnnoticed` | clusterloader2/pkg/measurement/common/wait_for_controlled_pods.go:406-441 | Witness against the promise that the count catches every handler error: two failed comparisons, and success with a checker for a spec the object no longer has. |
| `ControlledPodsBarrier.FailedDeletionFakesSuccess` | clusterloader2/pkg/measurement/common/wait_for_controlled_pods.go:406-441 | Witness: a failed comparison on a deletion leaves a running checker that makes up for a listed object that never ran. |
| `ControlledPodsGather.SuccessMeansPodsWereSeen` | clusterloader2/pkg/measurement/common/wait_for_controlled_pods.go:286-654 | Handler, pod index and waits side by side: success means that for every listed key the wait of its checker saw the goal on exactly the pods owned at that moment by the object now under the key. |
| `ControlledPodsGather.StepKeepsInv` | clusterloader2/pkg/measurement/common/wait_for_controlled_pods.go:567-654 | Every step keeps each listing equal to that of an index that never forgets, and running only for waits that saw the goal. |
| `ControlledPodsGather.SetStatus` | clusterloader2/pkg/measurement/common/wait_for_controlled_pods.go:622-650 | The outcome of a wait gives the status: running or deleted when the goal was reached, late when the deadline has passed, failed otherwise. |
| `ControlledPodsGather.GoneMeansNoPods` | clusterloader2/pkg/measurement/common/wait_for_controlled_pods.go:580-584 | A deletion that counts as done saw, on a truthful listing, the goal of having no pods. |
| `ControlledPodsGather.SuccessIsPossible` | clusterloader2/pkg/measurement/common/wait_for_controlled_pods.go:286-654 | A run with one object and one ready pod in which gathering succeeds. |
| `ControlledPodsGather.RunsTheBarrier` | clusterloader2/pkg/measurement/common/wait_for_controlled_pods.go:410-456 | Every run of the whole is, for handler and checkers, a run the barrier results are about. |
| `ServiceCreation.PhaseNameInjective` | clusterloader2/pkg/measurement/common/service_creation_latency.go:464-466 | Phase names of different phases or types never collide. |
| `ServiceCreation.WorkStepKeepsInv` | clusterloader2/pkg/measurement/common/service_creation_latency.go:399-462 | Each table access of a worker keeps: reachable implies created, and assigned where an address is needed. |
| `ServiceCreation.InvAlways` | clusterloader2/pkg/measurement/common/service_creation_latency.go:399-524 | That order holds at every moment of every interleaving of any number of workers. |
| `ServiceCreation.KeysOnlyGrow` | clusterloader2/pkg/measurement/util/phase_latency.go:75-83 | No phase entry is ever removed. |
| `ServiceCreation.WaitForReadySound` | clusterloader2/pkg/measurement/common/service_creation_latency.go:206-218 | When waitForReady is done, its last poll read, type after type, the reachable count and then the created count; at those very reads every key created by the second was reachable at the first, with its assigned phase where needed, and still is. |
| `ServiceCreation.FourTypesReady` | clusterloader2/pkg/measurement/common/service_creation_latency.go:206-218 | The four pairs of reads by type: ClusterIP, NodePort, LoadBalancer, ingress. |
| `ServiceCreation.ReadyIsReported` | clusterloader2/pkg/measurement/common/service_creation_latency.go:206-218 | Completeness: when the counts agree for every type, an undisturbed poll reports readiness. |
| `ServiceCreation.ReadsProveReadiness` | clusterloader2/pkg/measurement/common/service_creation_latency.go:209-214 | Equal counts, reachable read first, make the created keys at the second read equal the reachable keys at the first. |
| `ServiceCreation.PollInvAlways` | clusterloader2/pkg/measurement/common/service_creation_latency.go:206-218 | At every moment, the reads a poll has finished are read steps of that poll, reachable before created and type after type, with equal counts. |
| `ServiceCreation.RunPingChecker` | clusterloader2/pkg/measurement/common/service_creation_latency.go:491-525 | Reachability is recorded at the first turn that answers together with the two turns before it, never after a stop. |
| `ServiceCreation.ReachableAnsweredThrice` | clusterloader2/pkg/measurement/common/service_creation_latency.go:491-525 | In every run a service that counts as reachable answered three accesses of one worker in a row. |
| `ServiceCreation.StoppedPingIsOver` | clusterloader2/pkg/measurement/common/service_creation_latency.go:493-496 | A stopped ping records nothing more. |
| `ServiceCreation.TypesTakenUp` | clusterloader2/pkg/measurement/common/service_creation_latency.go:399-403 | Exactly the updates of the four types are taken up. |
| `ServiceCreation.FirstTimeStays` | clusterloader2/pkg/measurement/common/service_creation_latency.go:408-421 | Later updates do not move a recorded time of creation or of the address, unless another worker had already found it missing. |
| `ServiceCreation.AddressWasDelivered` | clusterloader2/pkg/measurement/common/service_creation_latency.go:411-421 | A service with a recorded address got it from an update that carried one. |
| `ServiceCreation.AddressIsRecorded` | clusterloader2/pkg/measurement/common/service_creation_latency.go:415-428 | The first update with an address is recorded with its time, and the service is then pinged. |
| `ServiceCreation.DeletedWasDeleting` | clusterloader2/pkg/measurement/common/service_creation_latency.go:365-380 | A key that counts as deleted was recorded as being deleted. |
| `ServiceCreation.DeletionIsRecorded` | clusterloader2/pkg/measurement/common/service_creation_latency.go:365-380 | A deletion is recorded with both of its times. |
| `ServiceCreation.ReversedOrderUnsound` | clusterloader2/pkg/measurement/common/service_creation_latency.go:209-212 | Witness that the order of the two reads matters: a run of the service workers in which the counts agree when created is read first, although a created service is not reachable. |
| `PhaseLatency.ObjectTransitionTimes.Set` | clusterloader2/pkg/measurement/util/phase_latency.go:75-83 | Records one phase time and keeps every other entry. |
| `PhaseLatency.ObjectTransitionTimes.Get` | clusterloader2/pkg/measurement/util/phase_latency.go:85-94 | Finds a time exactly for recorded pairs. |
| `PhaseLatency.ObjectTransitionTimes.Count` | clusterloader2/pkg/measurement/util/phase_latency.go:96-107 | Counts the keys that have the phase. |
| `PhaseLatency.TableIsHistory` | clusterloader2/pkg/measurement/util/phase_latency.go:75-94 | After any Set calls, reading returns what was last set for that key and phase, and nothing else. |
| `PhaseLatency.CountedWereSet` | clusterloader2/pkg/measurement/util/phase_latency.go:75-107 | The keys that count for a phase are those for which it was ever set. |
| `PhaseLatency.LatencyIsHistory` | clusterloader2/pkg/measurement/util/phase_latency.go:122-147 | A latency is the time from the last Set of one phase to the last Set of the other, or zero, for exactly the filtered keys with both. |
| `PhaseLatency.ObjectTransitionTimes.CalculateTransitionsLatency` | clusterloader2/pkg/measurement/util/phase_latency.go:116-155 | For each transition the three percentiles over the eligible keys (zeros without any), whatever order the maps are iterated in. |
| `PhaseLatency.ObjectTransitionTimes.CollectLatencies` | clusterloader2/pkg/measurement/util/phase_latency.go:122-147 | One clamped latency per eligible key. |
| `PhaseLatency.ReportIsDeterminedAndOrdered` | clusterloader2/pkg/measurement/util/phase_latency.go:149-154 | The metric is a function of the recorded data alone and 0 <= perc50 <= perc90 <= perc99. |
| `PhaseLatency.SortedLatenciesReport` | clusterloader2/pkg/measurement/util/latency_metric.go:107-119 | NewLatencyMetric on sorted latencies reports the nearest-rank percentiles. |
| `OrderStatistics.NearestRank` | clusterloader2/pkg/measurement/util/latency_metric.go:115-117 | The ceiling index is in range and picks the smallest value with at least p percent of the data at or below it. |
| `OrderStatistics.PercentileMonotone` | clusterloader2/pkg/measurement/util/resource.go:93-105 | Percentiles are unique and monotone in p. |
| `OrderStatistics.PercentileOfPermutation` | clusterloader2/pkg/measurement/util/resource.go:86-90 | A percentile does not depend on the order of the samples. |
| `OrderStatistics.HundredthIsMax` | clusterloader2/pkg/measurement/util/resource.go:96-101 | The 100th percentile is the maximum. |
| `OrderStatistics.KeyPercentile` | clusterloader2/pkg/measurement/util/phase_latency.go:121-151 | The percentile of an enumeration is the percentile of the keyed data. |
| `ResourceUsage.CollectUsage` | clusterloader2/pkg/measurement/util/resource.go:71-85 | Each container gets exactly its own samples, in time order. |
| `ResourceUsage.SamplesInOrder` | clusterloader2/pkg/measurement/util/resource.go:71-85 | The j-th sample of each of the three series is that reading of the j-th snapshot that lists the container. |
| `ResourceUsage.SortUsage` | clusterloader2/pkg/measurement/util/resource.go:86-90 | The three series of each container become sorted permutations. |
| `ResourceUsage.ComputePercentiles` | clusterloader2/pkg/measurement/util/resource.go:67-107 | For every percentile in 1..100 and container, each of the three values is one of the snapshots' readings, at least that percentage of the listing snapshots read as much or less, and fewer read less. |
| `ResourceUsage.UsageCounts` | clusterloader2/pkg/measurement/util/resource.go:93-105 | The percentiles of the three series are those counted in snapshots. |
| `ResourceUsage.UsageMonotone` | clusterloader2/pkg/measurement/util/resource.go:92-106 | Reported usage is determined by the snapshots, monotone in the percentile, and at 100 bounds every snapshot. |
| `ResourceUsage.LeftMergeData` | clusterloader2/pkg/measurement/util/resource.go:110-122 | Keeps exactly left's percentiles and changes the inner maps in place as visiting every percentile once, in some order, does; any maps may be shared. |
| `ResourceUsage.MergedInAnyOrder` | clusterloader2/pkg/measurement/util/resource.go:110-122 | If no map of left is right's map of another percentile, then in any order a map of left ends with right's entries of all the percentiles that share it, over its own. |
| `ResourceUsage.UnsharedMerge` | clusterloader2/pkg/measurement/util/resource.go:110-122 | A map no other percentile shares becomes its old contents overridden by those of right, whatever the order. |
| `Histograms.HistogramVec.ConvertSampleToBucket` | clusterloader2/pkg/measurement/util/histogram.go:87-106 | Label sets stay pairwise distinct and every (labels, le) cell is the sum of exactly its samples, although a new histogram is appended as a copy sharing its bucket map. |
| `Histograms.HistogramVec.Bump` | clusterloader2/pkg/measurement/util/histogram.go:105-105 | Adding through the shared bucket map changes one cell of one histogram. |
| `Histograms.Truncate` | clusterloader2/pkg/measurement/util/histogram.go:105-105 | Conversion to int drops the fraction toward zero. |
| `Histograms.LabelsOf` | clusterloader2/pkg/measurement/util/histogram.go:88-93 | The labels of a histogram are those of the sample without le. |
| `Histograms.BoundOf` | clusterloader2/pkg/measurement/util/histogram.go:105-105 | The bucket is the le label, empty when there is none. |
| `Histograms.ConvertAll` | clusterloader2/pkg/measurement/util/histogram.go:87-106 | The same for any whole sample sequence. |
| `Histograms.SingleHistogram.ConvertSampleToHistogram` | clusterloader2/pkg/measurement/util/histogram.go:109-120 | Labels are those of the sample, its bucket grows by the truncated value. |
| `Histograms.SingleHistogram.HistogramSub` | clusterloader2/pkg/measurement/common/scheduler_latency.go:149-154 | Every bucket of the final histogram loses the initial count (zero when absent), even when both are one object. |
| `Histograms.ConvertScrape` | clusterloader2/pkg/measurement/util/histogram.go:109-120 | Converting a whole scrape accumulates its samples per bound. |
| `Histograms.AccumulatedOfPermutation` | clusterloader2/pkg/measurement/util/histogram.go:109-120 | The accumulated histogram does not depend on the order of the samples. |
| `Histograms.AccumulatedScrape` | clusterloader2/pkg/measurement/util/histogram.go:109-120 | Several cumulative series accumulate to their sum at every common bound. |
| `Histograms.DifferenceCountsNew` | clusterloader2/pkg/measurement/common/scheduler_latency.go:149-171 | If no per-range count decreased, each bucket after subtraction counts the observations up to its bound made in between. |
| `Histograms.DifferenceIsCumulative` | clusterloader2/pkg/measurement/common/scheduler_latency.go:149-171 | The difference is non-negative and nondecreasing in the bound. |
| `Histograms.DifferenceIgnoresOrder` | clusterloader2/pkg/measurement/common/scheduler_latency.go:149-171 | The difference of two scrapes does not depend on the order of their samples. |
| `Histograms.PrepareBuckets` | clusterloader2/pkg/measurement/util/histogram.go:41-72 | Exactly one bucket per bound, infinite bounds last and finite ones not falling; an error exactly when a bound does not parse; the sample count is the count of a key that no key exceeds, in parsed value. |
| `Histograms.AsUnsigned` | clusterloader2/pkg/measurement/util/histogram.go:54-54 | Conversion to unsigned keeps counts and wraps negative ones. |
| `Histograms.SampleCountIsLastBound` | clusterloader2/pkg/measurement/util/histogram.go:61-70 | The sample count is the count stored under the greatest bound. |
| `Histograms.SampleCountIsNewObservations` | clusterloader2/pkg/measurement/util/histogram.go:48-70 | End to end, for the samples of two scrapes in any order, the sample count after subtraction is the number of observations between the scrapes. |
| `Pods.ComputePodsStartupStatus` | clusterloader2/pkg/measurement/util/pods.go:104-155 | Every counter equals the number of pods podStatus puts in that class (unknown: minus pods in an unlisted phase). |
| `Pods.CountPod` | clusterloader2/pkg/measurement/util/pods.go:110-153 | One loop turn keeps that agreement. |
| `Pods.CountsPartition` | clusterloader2/pkg/measurement/util/pods.go:74-155 | Ready-and-updated, inactive and unsettled pods partition any listing. |
| `Pods.StrictExitMeansSettled` | clusterloader2/pkg/measurement/util/wait_for_pods.go:124-128 | The strict exit holds if and only if exactly the desired number of pods is ready and updated and all others are inactive. |
| `Pods.SettledMeans` | clusterloader2/pkg/measurement/util/wait_for_pods.go:124-128 | On the pods: as many live running pods with a true Ready condition that are up to date as desired, and all others finished. |
| `Pods.StatusMeans` | clusterloader2/pkg/measurement/util/pods.go:74-102 | When a pod is reported in which state, on its fields. |
| `Pods.FindReady` | clusterloader2/pkg/measurement/util/pods.go:117-123 | Ready if and only if some condition has type Ready and status True. |
| `Pods.MarginExitMeans` | clusterloader2/pkg/measurement/util/wait_for_pods.go:129-133 | The margin exit leaves at most the margin of unsettled pods and at most desired plus margin pods. |
| `Pods.ExitIffInRangeAndBounded` | clusterloader2/pkg/measurement/util/wait_for_pods.go:124-133 | With a margin, the wait ends on a listing if and only if the ready and updated pods are in the documented range and either all others are inactive, or at most the margin is inactive and the unsettled pods fit into what is missing. |
| `Pods.RangeIsNotEnough` | clusterloader2/pkg/measurement/common/wait_for_controlled_pods.go:118-119 | Witness: a listing in the documented range, without inactive pods, on which the wait goes on. |
| `Pods.WaitForPods` | clusterloader2/pkg/measurement/util/wait_for_pods.go:59-138 | Stops at the first deciding turn; success only on the cluster condition, list failure only on a failed list, and at context end the not-ready pods of the last listing. |
| `Pods.NotRunningAndReady` | clusterloader2/pkg/measurement/util/pods.go:264-297 | Exactly the pods that are not running and ready, in order. |
| `Pods.NotReadyInOrder` | clusterloader2/pkg/measurement/util/pods.go:264-297 | The report describes, in listing order, exactly the pods that are not running and ready, with their name, namespace, host, phase and status. |
| `Pods.DiffPods` | clusterloader2/pkg/measurement/util/pods.go:227-244 | The diff holds every name of either listing with the last old and last current pod of that name. |
| `Pods.LastNamedMeans` | clusterloader2/pkg/measurement/util/pods.go:227-244 | The pod of a name is the one no later pod of the listing shares the name with. |
| `Pods.DeletedPods` | clusterloader2/pkg/measurement/util/pods.go:205-213 | Each name whose current host is the NonExist marker, once. |
| `Pods.AddedPods` | clusterloader2/pkg/measurement/util/pods.go:216-224 | Each name whose old host is the NonExist marker, once. |
| `Pods.DeletedAndAddedExactIff` | clusterloader2/pkg/measurement/util/pods.go:205-244 | For pods identified by namespace and name: the deleted names are those of the pods that disappeared if and only if the host marker tells for every name still listed; added likewise. |
| `Pods.OnRealNodesNamesakesDecide` | clusterloader2/pkg/measurement/util/pods.go:205-244 | On nodes not named like the marker that condition holds if and only if no pod disappears while a pod of the same name in another namespace stays. |
| `Pods.NamesakeHidesDeletion` | clusterloader2/pkg/measurement/util/pods.go:227-244 | Witness: a pod disappears, its namesake in another namespace stays, and no diff of the two listings reports a deletion. |
| `NodeKiller.FilterInPlace` | clusterloader2/pkg/chaos/nodes.go:129-134 | Filtering while overwriting the iterated slots keeps exactly the eligible nodes in order. |
| `NodeKiller.Shuffle` | clusterloader2/pkg/chaos/nodes.go:135-137 | A permutation of the kept prefix, the rest of the array untouched. |
| `NodeKiller.PickNodes` | clusterloader2/pkg/chaos/nodes.go:109-147 | Distinct listed nodes outside the Prometheus and killed sets: all n such nodes, or the least number that reaches rate*n. |
| `NodeKiller.NumberToFailIsCeiling` | clusterloader2/pkg/chaos/nodes.go:138-142 | The number asked for is the ceiling of rate*n, at most n for rates up to one. |
| `NodeKiller.StepKeepsInv` | clusterloader2/pkg/chaos/nodes.go:149-179 | Every step of rounds and goroutines keeps the log orderly and tied to the killed set. |
| `NodeKiller.KillingIsOrderly` | clusterloader2/pkg/chaos/nodes.go:149-187 | Over all runs no node is stopped or rebooted twice, every reboot follows the stop of its node, excluded nodes are never touched, and nothing is under way while stopped. |
| `NodeKiller.PicksAreSafe` | clusterloader2/pkg/measurement/common/chaos_monkey_measurement.go:60-88 | Across rounds and start/stop pairs no node is picked twice, and excluded or Prometheus nodes are never picked. |
| `NodeKiller.CycleIsPossible` | clusterloader2/pkg/chaos/nodes.go:149-187 | A run with two rounds, one reboot and one failed stop exists. |
| `GkeVersions.MatchIsPreferredDerivation` | test-infra/tftest/pkg/env/extract_k8s.go:223-225 | The greedy backtracking matcher finds a match whenever one exists, and the preferred one. |
| `GkeVersions.FindIsLeftmost` | test-infra/tftest/pkg/env/extract_k8s.go:224-228 | The unanchored search succeeds exactly when the pattern occurs, at its leftmost occurrence. |
| `GkeVersions.PrintParse` | test-infra/tftest/pkg/env/extract_k8s.go:222-264 | Parsing a printed version returns that version. |
| `GkeVersions.ParseMeans` | test-infra/tftest/pkg/env/extract_k8s.go:222-247 | The parsed version has the values of the four numerals at the leftmost place that spells a version, each as long as possible in turn, unless one exceeds 64 signed bits. |
| `GkeVersions.NoParse` | test-infra/tftest/pkg/env/extract_k8s.go:222-230 | Nothing is parsed where nothing is spelled. |
| `GkeVersions.PrintsInDecimal` | test-infra/tftest/pkg/env/extract_k8s.go:262-264 | Version 1.29.2-gke.30 is printed as written. |
| `GkeVersions.GreaterIsStrictTotalOrder` | test-infra/tftest/pkg/env/extract_k8s.go:249-260 | greater is a strict total order, and not-below is the order of major, minor, patch and GKE patch, in turn. |
| `GkeVersions.ConvertToSortedGKEVersions` | test-infra/tftest/pkg/env/extract_k8s.go:266-277 | Fails exactly when some version does not parse, else the parsed versions in descending order of the components. |
| `GkeVersions.GetGKELatestForMinor` | test-infra/tftest/pkg/env/extract_k8s.go:279-294 | With no listed version of larger major and minor setting the target, the listed version of the target minor with the largest major, then patch, then GKE patch; with the exact failure cases. |
| `GkeVersions.SelectionIgnoresOrder` | test-infra/tftest/pkg/env/extract_k8s.go:279-294 | The answer does not depend on the order of the listed versions. |
| `GkeVersions.ParsedOfPermutation` | test-infra/tftest/pkg/env/extract_k8s.go:266-277 | Reordered input strings parse to reordered versions. |
| `GkeVersions.AnswerIgnoresInputOrder` | test-infra/tftest/pkg/env/extract_k8s.go:279-294 | Reordering the input strings changes neither the answer nor the error. |
| `LoadPacing.ExecuteStepped` | clusterloader2/pkg/tuningset/stepped_load.go:36-46 | Every action starts once, in order, exactly after the previous one, the pause at a full burst and the overhead of the loop; hence at least the delay apart after each burst. |
| `LoadPacing.IdleMachine` | clusterloader2/pkg/tuningset/stepped_load.go:36-46 | On an idle machine the actions of a burst start together and the next burst exactly one delay later. |
| `LoadPacing.BurstsSpread` | clusterloader2/pkg/tuningset/stepped_load.go:41-43 | Starts m bursts apart are at least m delays apart. |
| `LoadPacing.WindowHoldsAtMostMBursts` | clusterloader2/pkg/tuningset/stepped_load.go:36-46 | Any half-open window of m delays holds at most m bursts of starts. |
| `LoadPacing.ExecuteTimeLimited` | clusterloader2/pkg/tuningset/time_limited.go:36-47 | Every action starts once and the requested sleeps sum to the limit up to less than n nanoseconds, never beyond it, also for a negative limit. |
| `TuningSets.ValidateTuningSet` | clusterloader2/api/validation.go:190-229 | No fault exactly when one load type is declared and its parameters are positive. |
| `TuningSets.Faults` | clusterloader2/api/validation.go:255-320 | A load type has no fault exactly when its parameters are positive. |
| `TuningSets.ValidateTuningSetInPhase` | clusterloader2/api/validation.go:129-147 | No fault exactly when every non-empty name used by a phase is declared. |
| `TuningSets.Validate` | clusterloader2/api/validation.go:48-82 | No fault exactly when all tuning sets are well declared, steps exist, and every used name is declared. |
| `TuningSets.Factory.Init` | clusterloader2/pkg/tuningset/simple_tuning_set_factory.go:39-44 | Each name maps to its last declaration. |
| `TuningSets.LastDeclaredMeans` | clusterloader2/pkg/tuningset/simple_tuning_set_factory.go:39-44 | The declaration of a name is the one no later declaration shares the name with. |
| `TuningSets.Factory.CreateTuningSet` | clusterloader2/pkg/tuningset/simple_tuning_set_factory.go:47-72 | Creates the declared load that comes first in the switch, or hands out the limiter already registered under the name, or gives the right error. |
| `TuningSets.SwitchOrder` | clusterloader2/pkg/tuningset/simple_tuning_set_factory.go:52-71 | Which load is created when several are declared. |
| `TuningSets.Factory.GetOrCreate` | clusterloader2/pkg/tuningset/global_qps_load.go:39-48 | An existing limiter wins over new parameters. |
| `TuningSets.HistoryIsSound` | clusterloader2/pkg/tuningset/simple_tuning_set_factory.go:39-72 | After any calls with validated configurations every declared set is well declared and every limiter is a global QPS load that can run. |
| `TuningSets.CreatedLoadCanRun` | clusterloader2/pkg/tuningset/simple_tuning_set_factory.go:47-72 | However often it is initialised with validated configurations, creating a declared name succeeds with a load of the declared type that can run, with the declared parameters exactly unless another limiter holds the name. |
| `TuningSets.LimitersAreDeclared` | clusterloader2/pkg/tuningset/global_qps_load.go:39-48 | After a single validated Init, every limiter is the load declared under its name. |
| `TuningSets.ValidatedNameIsCreated` | clusterloader2/api/validation.go:120-147 | With one Init of a validated configuration, as the executor makes, every creation of a name a phase uses gives the unique load of its last declaration, with positive parameters. |
| `TuningSets.StaleLimiterAfterReinit` | clusterloader2/pkg/tuningset/global_qps_load.go:39-48 | Runs Init, create, Init with other parameters, create on one factory: the second answer keeps the first parameters. |
| `ApiAvailability.Metrics.Update` | clusterloader2/pkg/measurement/common/api_availability_metrics.go:41-52 | Counters summarise the whole probe history: successes, failures, trailing failing run, longest failing run. |
| `ApiAvailability.Metrics.BuildSummary` | clusterloader2/pkg/measurement/common/api_availability_metrics.go:54-65 | The percentage is the exact share, within 0..100, and the outage is the longest failing run times the period. |
| `ApiAvailability.NoProbeWhilePaused` | clusterloader2/pkg/measurement/common/api_availability_measurement.go:158-181 | In every interleaving, across gathers and restarts, no probe is recorded between taking a pause and taking an unpause. |
| `ApiAvailability.UnpauseDroppedIff` | clusterloader2/pkg/measurement/common/api_availability_measurement.go:272-283 | While a running measurement is paused, an unpause request is dropped exactly when it comes before the loop has set the flag. |
| `ApiAvailability.PauseDroppedIff` | clusterloader2/pkg/measurement/common/api_availability_measurement.go:259-270 | While a measurement runs outside pauses, a pause request is dropped exactly when it comes before the loop has cleared the flag. |
| `ApiAvailability.RequestReturnsIff` | clusterloader2/pkg/measurement/common/api_availability_measurement.go:143-289 | In every state any starts, failed starts, pauses, unpauses and gathers can reach, an action can return if and only if it is neither a pause made before the flag is set or after a failed start, nor an unpause made before the flag is cleared or after a failed start that found the flag set. |
| `ApiAvailability.FailedStartIsHistory` | clusterloader2/pkg/measurement/common/api_availability_measurement.go:148-193 | The failing state, read off the calls: the last start failed and was not gathered since. |
| `ApiAvailability.ProbesResume` | clusterloader2/pkg/measurement/common/api_availability_measurement.go:158-181 | A run in which probing resumes at once when the flag is cleared. |
| `ApiAvailability.DroppedUnpauseAndBlockingPause` | clusterloader2/pkg/measurement/common/api_availability_measurement.go:169-171 | A run to the gap before the flag is set: there an unpause is dropped and a second pause never returns. |
| `ApiAvailability.DroppedPauseAndBlockingUnpause` | clusterloader2/pkg/measurement/common/api_availability_measurement.go:161-164 | A run to the gap before the flag is cleared: there a pause is dropped and a second unpause never returns. |
| `ApiAvailability.FailedStartBlocksPause` | clusterloader2/pkg/measurement/common/api_availability_measurement.go:148-154 | A start whose parameters cannot be read leaves the measurement running without a loop: the next pause never returns. |
| `ApiAvailability.FailedRestartBlocksUnpause` | clusterloader2/pkg/measurement/common/api_availability_measurement.go:185-193 | Gathered while paused and restarted without success, the flag is still set and the next unpause never returns. |
| `ApiAvailability.GatherCanFinish` | clusterloader2/pkg/measurement/common/api_availability_measurement.go:285-291 | Wherever the loop is, a gather can finish. |
| `QueryWindows.QueryLoop` | clusterloader2/pkg/measurement/common/cilium_endpoint_propagation_delay.go:86-106 | The windows tile the interval without gap or overlap, each at most the query interval; a reversed interval gives one window. |
| `QueryWindows.QueryCount` | clusterloader2/pkg/measurement/common/cilium_endpoint_propagation_delay.go:88-106 | The number of queries is max(1, ceil(length/interval)). |
| `QueryWindows.PrintedTotal` | clusterloader2/pkg/measurement/util/prometheus.go:176-179 | The whole-second durations sum to within one second of the interval. |
| `QueryWindows.PrintedSeconds` | clusterloader2/pkg/measurement/util/prometheus.go:176-179 | A printed duration drops the fraction of a second toward zero. |

## Left out

- Kubernetes, Prometheus, SSH, gcloud, terraform, boskos and HTTP calls: input and output without visible semantics.
- Tombstones, replica sets replaced under the same name and informer relists: the handlers do not resolve them, so the step guards and the log shape exclude them.
- Cancellation of checkers and their wait goroutines: a checker that leaves the map no longer matters for the count.
- waitForDeletion and the job-completion comparison: their read order or event order does not support the argument used for readiness.
- schedulerLatencyMetrics.subtract and the threshold checks of LatencyMetric: they only apply HistogramSub or a comparison per field.
- Validation of namespaces, dependencies, phases, objects and measurements: their faults enter `Validate` as one list.
- PV and PVC status and diff, namespace state, error lists, factories, template cache, dependency manager: smaller or easier copies of what is here.
- Random, Poisson, QPS and parallelism-limited pacing: probabilistic or delegated to other libraries.
- Floating-point rounding, NaN, bounds that parse to minus infinity, 64-bit overflow of durations and counts, saturation of time differences, and structural equality of time values.
- Quantile interpolation inside a bucket and JSON output.
- NodeKiller.KillingIsOrderly: a second start while a killer runs is excluded; the source accepts it, and two killers can then pick the same node and write the killed set at once.
- ApiAvailability.RequestReturnsIff: what a gather reports after a failed start, when the metrics may not exist, is not modelled.
- ControlledPodsGather.SuccessMeansPodsWereSeen: each listing is one answer of the index; a listing that overlaps index changes is treated by OverlappingQuery alone, and a wait whose replica counter cannot be started never returns.
- NodeKiller.PickNodes: node names of one listing are taken to be distinct and the failure rate non-negative, because a negative rate makes the source slice out of range.
- ResourceUsage.ComputePercentiles: percentiles outside 1..100 are excluded because the source then indexes out of range.
- LoadPacing.ExecuteStepped: a burst size of zero is excluded because the source divides by it; validation rejects it.
- Histograms.SampleCountIsNewObservations: totals below 2^64, so that the conversion to unsigned does not wrap.
