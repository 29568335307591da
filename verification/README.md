# Verified model of the build-system core

This project models the parts of the repository whose correctness is hard to see
from the code, and proves what they promise.

- **Snapshot pipeline** (`ChainTable`, `Pipeline*`, `ResultHeap`, `Committer`). N
  workers, a closer, the caller and one committer as a step relation over two bounded
  channels, a min-heap, a cancelled flag, the first error and a one-slot error channel.
  Proved: parents are committed first, one verdict, no deadlock and no endless run, and
  refinement of the sequential commit loop. The committer's loop body is also an
  imperative method on an array heap, shown to be a run of the step relation.
- **Trees** (`FileTree`, `NameOrder`, `Pruner`, `Walker`, `WalkerProperties`,
  `WalkerCoverage`, `WalkerEmissions`, `PathText`, `PruningSet`, `PruningMinimum`,
  `PruningStream`, `PatternFilter`). File systems are finite trees; Remove and RemoveAll
  delete a path or everything at and below it.
- **File comparison** (`FileCompare`, `ParallelCompare`). The chunk loops, and the
  goroutines with their shared cancellation under every schedule.
- **Hash deduplication** (`Whiteout`, `OwnerLookup`, `StackKey`, `Dedup`, `DedupRuns`,
  `DedupCaching`, `Lru`, `LruForgets`, `RingCache`, `Wal`, `PersistentCache`). Cache
  transparency under concurrency and eviction, the two bounded caches as maps that forget,
  the whiteout index against direct lookups, and the write-ahead log under a crash at any
  byte.
- **Sampler** (`Sampler`, `SamplerRuns`), **LLB graphs** (`LlbGraph`, `LlbMarshal`),
  **io_uring batches** (`Bits`, `RingSize`, `IoRing`) and the **tail-to-head tar scan**
  (`TarScan`).
- `Wrappers` and `Collections` hold what several models share.

Mutable entities are classes whose methods are proved against specification functions;
the properties are lemmas about those functions or about whole runs. Codecs are
functions with `decode(encode(x)) == x`, digests are free of collisions, and the
answers of the snapshotter, the kernel, the hasher, the clock and the context are
parameters.

Run `dafny verify dfyconfig.toml` to check everything.

## Where the code and its documentation differ

The model follows the code. For each difference, one lemma exhibits it and one gives the
exact condition.

- The error channel is documented to carry the first error. A later worker's error can be
  delivered, and so can the end of the context
  (`PipelineFirstError.SecondErrorCanBeDelivered`, `ContextErrorCanBeDelivered`;
  `PipelineErrors.DeliversFirstIffLoyal`).
- `SegmentWorkers` is documented as the maximum number of goroutines; one more can be
  started (`FileCompare.LimitExceeded`; `WithinLimitIff`).
- The pruning set is documented as a minimum collection; the same leaf added twice is
  kept twice (`PruningSet.SameLeafTwice`; `PruningMinimum.AddsAreMinimumIff`).
- The filter is commented as letting exclusion win over everything; an excluded path below
  a collapsed directory is removed with it (`PatternFilter.ExcludedCanBeCovered`;
  `WalkerCoverage.RefusedCoveredIff`).
- `Sub.Close` is commented as idempotent; a second call may return other samples
  (`Sampler.CloseCanDiffer`; `CloseRepeatsIff`). Its samples are documented as at least the
  interval apart; the final one may be closer (`FinalSampleTooClose`; `CloseIsSpacedIff`).
- The compliant whiteout resolver is documented as extending the plain one; it does not
  look for an opaque marker in the root (`Whiteout.OpaqueRootIsMissed`;
  `CompliantExtendsPlainIff`). The index misses markers of names that start with ".wh."
  (`IndexMissesMarkedMarker`; `IndexAgreesIff`).
- The log accepts entries that replay refuses (`Wal.OversizedHidesTheRest`;
  `ReplayCompleteIff`), and appends after a torn tail (`AppendAfterTornByteIsLost`,
  `TornPayloadSwallows`; `AppendsKeptIff`).
- The singleflight key joins identifiers by "|", so that identifiers which hold it can be
  confused (`StackKey.BarConfusesStacks`; `KeyIff`). Requests for one path under one top
  layer need equal answers too (`DedupRuns.TwoStacksOneTop`; `TransparentIff`); one stack
  for each top layer is enough (`DisciplinedIsTransparent`).
- The ring size is described as the smaller of work and entries, rounded up; the code
  rounds the work up and then caps (`RingSize.HundredEntries`; `RoundingIff`). The number of
  entries "must be a power of two", but the option accepts any number from 64 to 32768;
  with others, one failed enter call makes a later complete one repeat some operations and
  leave out others, without an error (`IoRing.OddEntriesRepeat`; `ExactlyOnceIffClean`). In
  a ring of a power of two a partial enter call does the same (`PartialTakeLoses`;
  `AtLeastOnceIff`).

## Model

| member | source | states |
|---|---|---|
| ChainTable.BuildChainTable | core/snapshotter/orchestrator/snap.go:175-185 | the one-pass loop builds, for every list of diff IDs, the table whose i-th row is the chain ID of the first i+1 layers and the previous row as parent, none for the first |
| ChainTable.ChainIDFollowsSpec | core/snapshotter/orchestrator/snap.go:175-185 | the folded chain IDs satisfy the recursive equation of "Layer ChainID" in config.md of the OCI Image Format Specification |
| ChainTable.TableIsLinked | core/snapshotter/orchestrator/snap.go:175-185 | every row names its predecessor's chain ID as parent and no two rows share a chain ID, even with repeated diff IDs |
| ChainTable.ChainIDsDiffer | core/snapshotter/orchestrator/snap.go:175-185 | two layers never get the same chain ID |
| Pipeline.ProcessEvent | core/snapshotter/orchestrator/snap.go:500-553 | exactly which answers of the snapshotter and the action make a result without error, and when a layer counts as committed already |
| Pipeline.FailureTellsCause | core/snapshotter/orchestrator/snap.go:500-553 | and for each error exactly when it is the result: the first of label, range, Prepare, Mounts and action that went wrong |
| PipelineSafety.RunKeepsInv | core/snapshotter/orchestrator/snap.go:289-467 | an inductive invariant of every interleaving of caller, workers, closer, committer and cancellation: channel bounds, results, heap, verdict, calls issued, prefix committed |
| PipelineSafety.CommitOnlyAfterParents | core/snapshotter/orchestrator/snap.go:414-464 | in every reachable state, a step issues at most one Commit: of a layer all of whose predecessors are in the snapshotter, with exactly the previous chain ID as parent (none for layer 0), and larger than every layer committed before |
| PipelineCalls.EveryCallIsItsLayers | core/snapshotter/orchestrator/snap.go:422-441 | in every reachable state, every call ever issued commits the snapshot prepared under its layer's diff ID, under the chain ID of the layers up to it and with the one before as parent, and carries the options of a submitted event labelled with that layer |
| PipelineSafety.SingleVerdict | core/snapshotter/orchestrator/snap.go:341-464 | at most one value is ever put on the error channel, the blocking sends always find it empty, and the value is nil exactly when every layer is accounted for |
| PipelineLiveness.StuckMeansFinal | core/snapshotter/orchestrator/snap.go:289-467 | no state of any run is stuck before the caller, all workers, the closer and the committer have finished |
| PipelineLiveness.StepUses | core/snapshotter/orchestrator/snap.go:289-467 | every step of every goroutine lowers one potential |
| PipelineLiveness.RunsAreFinite | core/snapshotter/orchestrator/snap.go:289-467 | so no run has more steps than the potential of its first state |
| PipelineLiveness.MaximalRunsFinish | core/snapshotter/orchestrator/snap.go:289-467 | every maximal run delivers exactly one verdict, nil if and only if every layer was committed in order, after which all of them are in the snapshotter |
| PipelineLiveness.NeverStuckNorEndless | core/snapshotter/orchestrator/snap.go:306-309 | from every reachable state someone can move until all are done, and only boundedly long: the caller's send is never blocked forever, even after the committer has left |
| PipelineRefinement.CleanRunsConserve | core/snapshotter/orchestrator/snap.go:289-464 | without failures, at every moment each layer is in exactly one of: the caller's hands, the event channel, a worker, the result channel, the heap, the committer, the committed prefix |
| PipelineRefinement.NeverSeesClosed | core/snapshotter/orchestrator/snap.go:353-403 | in such runs the committer never finds the result channel closed before the last layer |
| PipelineRefinement.CleanRunsCommitSequentially | core/snapshotter/orchestrator/snap.go:414-464 | for events in any order, every complete run without failures issues the very call sequence of the sequential loop, reports nil once, and leaves every layer committed |
| PipelineCalls.CleanRunsCommitMissing | core/snapshotter/orchestrator/snap.go:414-464 | told by the diff IDs: such a run commits exactly the layers that the snapshotter did not have, in order, each with its own event's options |
| PipelineFirstError.SecondErrorCanBeDelivered | core/snapshotter/orchestrator/snap.go:405-411 | a concrete run in which the delivered error is not the first one stored, against the documented promise |
| PipelineFirstError.ContextErrorCanBeDelivered | core/snapshotter/orchestrator/snap.go:341-351 | and one that delivers the end of the context although a worker had failed before and stores its error after |
| PipelineFirstError.DeliversFirstErrorIff | core/snapshotter/orchestrator/snap.go:405-456 | from every state in which the committer holds a failure, that failure can be delivered next, and is then the first one stored exactly when no other was stored before; the condition over whole runs follows |
| PipelineErrors.DeliversFirstIffLoyal | core/snapshotter/orchestrator/snap.go:341-456 | of every run that delivered an error and stored one: the two are the same if and only if no step stored a failure of the committer behind a different one or gave up on the context before any was stored; every other delivery carries the stored error |
| PipelineErrors.OneFailureIsDelivered | core/snapshotter/orchestrator/snap.go:289-456 | with at most one failing event (or all failing alike), the parent context left alone and no refused Commit: once an event has failed, a failed verdict carries exactly its failure, which is also the first one stored |
| PipelineVerdicts.VerdictHasCause | core/snapshotter/orchestrator/snap.go:341-456 | in every run a failure that is delivered has happened: an event failed so, the snapshotter refused that Commit, the context is done, or the results ran dry without the next layer |
| PipelineVerdicts.EndStopsProcessing | core/snapshotter/orchestrator/snap.go:281-296 | once the context is done, no event is processed but those already inside processEvent |
| ResultHeap.RootIsMinOfAll | core/snapshotter/orchestrator/snap.go:418-421 | the element at index 0 of an ordered heap is a minimum of all of them |
| ResultHeap.Heap.Push | core/snapshotter/orchestrator/snap.go:149-152 | the in-place sift keeps the heap order and adds exactly the pushed result to the multiset |
| ResultHeap.Heap.Pop | core/snapshotter/orchestrator/snap.go:149-160 | removes exactly one result, the one shown at index 0, a minimum, and restores the order |
| ResultHeap.Heap.Down | core/snapshotter/orchestrator/snap.go:149-160 | sifting the root down restores the order of the remaining part without losing or duplicating a result |
| Committer.OrderedCommitter.CommitReady | core/snapshotter/orchestrator/snap.go:440-464 | one answer of Commit: next, store, calls and outcome are those of the step relation |
| Committer.OrderedCommitter.CommitNext | core/snapshotter/orchestrator/snap.go:420-464 | one turn of the inner loop takes the least result and reaches the state of the step relation after the pop and the answer |
| Committer.OrderedCommitter.OnResult | core/snapshotter/orchestrator/snap.go:405-464 | the whole loop body on the array heap is a run of committer steps of the model, and it returns to the select only when the next layer is not in the heap |
| FileTree.PathsExact | pkg/dirpruner/pruner.go:254-290 | the set of a tree's paths is exactly the set of paths that can be looked up |
| Pruner.Walk.WalkDir | pkg/dirpruner/pruner.go:254-348 | the recursive loop enqueues exactly the specified operations in order and returns whether anything was kept |
| Pruner.Walk.WalkEntry | pkg/dirpruner/pruner.go:268-345 | the loop body enqueues what the entry needs and tells whether it is kept |
| Pruner.Walk.Enqueue | pkg/dirpruner/pruner.go:240-249 | appends one operation |
| Pruner.AppliedExactly | pkg/dirpruner/pruner.go:240-249 | Remove and RemoveAll together delete exactly the covered paths, in whatever order they are applied |
| Pruner.KeepsIffAnchor | pkg/dirpruner/pruner.go:254-348 | the recursive result is true exactly when some path below is itself a reason to keep |
| Pruner.CoveredIffNotSurvives | pkg/dirpruner/pruner.go:254-348 | for any filter and any tree, an existing path is hit by an operation if and only if it must not survive |
| Pruner.PruneIsExact | pkg/dirpruner/pruner.go:254-348 | applying the emitted operations in any order leaves exactly the accepted leaves below accepted directories and the directories that match or still hold a survivor |
| Pruner.NoOpAboveSurvivor | pkg/dirpruner/pruner.go:295-345 | no operation targets a survivor or one of its ancestors |
| Pruner.KeptAnyIffSomethingStays | pkg/dirpruner/pruner.go:254-262 | keptAny is true if and only if something survives |
| Pruner.OpsAreTruthful | pkg/dirpruner/pruner.go:254-338 | every operation aims at a path of the tree and is recursive exactly for directories |
| NameOrder.Compare | internal/dirsync/walker.go:110-150 | names are totally ordered: exactly one of before, equal and after |
| NameOrder.Transitive | internal/dirsync/walker.go:110-150 | and the order is transitive |
| Walker.Differ.EmitExclusive | internal/dirsync/walker.go:226-271 | the collapse decision and the descent emit exactly the specified sequence |
| Walker.Differ.EmitAllExclusive | internal/dirsync/walker.go:275-292 | the tail loop emits what a merge against an empty listing does |
| Walker.Differ.HandleCommon | internal/dirsync/walker.go:177-207 | the four cases of directory and non-directory emit exactly the specified sequence |
| Walker.Differ.WalkBoth | internal/dirsync/walker.go:80-165 | the two-pointer loop with its tail emits exactly the recursive merge of the two listings |
| Walker.Differ.Classify | internal/dirsync/walker.go:105-152 | one turn advances at least one pointer and keeps emitted plus outstanding unchanged |
| WalkerProperties.MergeByName | internal/dirsync/walker.go:80-165 | on sorted listings the merge emits below a name exactly what that name alone gives, with multiplicity |
| WalkerEmissions.WalkClassifiesExactly | internal/dirsync/walker.go:80-292 | without a filter a lower path is covered by an exclusive emission if and only if some prefix is missing above or is a directory facing a non-directory; it is emitted as common exactly once, with the right flag, if and only if it exists on both sides below common directories and the two are not both directories |
| WalkerProperties.WalkIsDisjoint | internal/dirsync/walker.go:226-271 | for every filter no exclusive path lies at or below another, and nothing is emitted twice |
| WalkerCoverage.WalkCoversIff | internal/dirsync/walker.go:80-292 | for every filter a lower path is covered if and only if one of its prefixes is an accepted path missing above, or a directory facing a non-directory, and it and everything above it is let through |
| WalkerCoverage.RefusedCoveredIff | internal/dirsync/filter.go:107-130 | a path the filter refuses is covered if and only if a proper prefix of it is |
| WalkerEmissions.ExclusiveIff | internal/dirsync/walker.go:80-292 | for every filter an exclusive emission is made, once, exactly for the lower paths that are reached and taken while nothing above them is; it is marked as a directory and as collapsed exactly when the path is one |
| WalkerEmissions.CommonIff | internal/dirsync/walker.go:177-207 | for every filter a common emission is made, once and with the right flag, exactly for the paths let through that both trees have, not both as directories |
| WalkerEmissions.WalkIsOrdered | internal/dirsync/walker.go:44-52 | the emissions come in the order of the paths, the common one before the exclusive one for the same path |
| PatternFilter.ExcludedCanBeCovered | internal/dirsync/filter.go:107-112 | an excluded path below a collapsed included directory is removed with it |
| WalkerCoverage.WalkFindsAcceptedLeaf | internal/dirsync/walker.go:226-292 | for every filter that lets its ancestors pass, an accepted leaf missing above is emitted or lies under a collapsed emission |
| PathText.IsPathUnderIsAncestry | internal/dirsync/pruning_set.go:171-173 | on clean paths the text test with the slash holds exactly for a path and its descendants; rendered paths are equal only for equal paths |
| PathText.UnderTransitive | internal/dirsync/pruning_set.go:171-173 | the test is transitive on all strings |
| PathText.RenderSlashed | internal/dirsync/walker.go:357-362 | joining component by component gives the slash-separated text |
| PruningSet.Set.Covered | internal/dirsync/pruning_set.go:99-108 | true exactly when a collapsed entry is at or above the path |
| PruningSet.Set.Add | internal/dirsync/pruning_set.go:61-87 | the in-place compaction and append reach the specified list, and the flag tells whether the path was uncovered |
| PruningSet.Set.Drain | internal/dirsync/pruning_set.go:137-146 | hands over all entries and leaves none |
| PruningSet.Set.Reset | internal/dirsync/pruning_set.go:149-153 | leaves no entries |
| PruningSet.AddKeepsNoOverlap | internal/dirsync/pruning_set.go:61-87 | no entry ever lies under a different collapsed entry |
| PruningSet.AddAddsRemoval | internal/dirsync/pruning_set.go:61-87 | an Add enlarges the removed paths by exactly what the new entry removes, accepted or refused |
| PruningSet.AddAddsCoverage | internal/dirsync/pruning_set.go:61-108 | and the covered paths by exactly those at or below it when it is collapsed |
| PruningSet.AddsAreExact | internal/dirsync/pruning_set.go:61-108 | for any sequence of Adds in any order: no overlap, the removal set is the union of everything added, and Covered holds if and only if a collapsed path at or above was added |
| PruningSet.SameLeafTwice | internal/dirsync/pruning_set.go:61-87 | the documented minimum is missed when one leaf is added twice |
| PruningSet.AddKeepsDistinctIff | internal/dirsync/pruning_set.go:61-87 | one Add keeps the paths distinct if and only if it is not an uncovered leaf that is already in the set |
| PruningMinimum.MinimumIff | internal/dirsync/pruning_set.go:14-30 | a collection is minimum, no smaller one removes the same paths, if and only if no entry lies under a different collapsed one and no path is listed twice |
| PruningMinimum.AddsAreMinimumIff | internal/dirsync/pruning_set.go:61-87 | after any Adds the set is the minimum collection if and only if no path was added twice without a collapsed path at or above it |
| PruningStream.WalkStreamAccepted | internal/dirsync/walker.go:226-271 | for every filter and pair of trees, the walk's own stream is accepted without a refusal or a pruned entry |
| PatternFilter.MatchesIff | internal/dirsync/filter.go:107-151 | a clean literal pattern matches exactly its path and what is below it, and promises descendants exactly to its proper ancestors |
| PatternFilter.IncludesIff | internal/dirsync/filter.go:107-151 | clean literal patterns let a path through if and only if no excluded path is at or above it and nothing is included, or an included path is at or above it, or it is a directory above one |
| PatternFilter.AcceptedMeansReachable | internal/dirsync/filter.go:107-151 | an accepted leaf has every ancestor directory accepted for descent |
| PatternFilter.WalkFindsIncludedLeaf | internal/dirsync/filter.go:107-151 | so the filtered walk loses no accepted leaf that is missing above |
| FileCompare.CompareSequential | internal/dirsync/hasher.go:174-213 | for every buffer size and every two contents, also of different length, the verdict is byte equality |
| FileCompare.SegmentInside | internal/dirsync/hasher.go:230-260 | every segment is non-empty, inside the file, and adjacent to the next |
| FileCompare.SegmentsTile | internal/dirsync/hasher.go:230-260 | each position of the file lies in exactly one segment |
| FileCompare.AtMostOneExtra | internal/dirsync/hasher.go:230-260 | at most workers + 1 segments whenever workers - 1 is at most the segment size |
| FileCompare.WithinLimitIff | internal/dirsync/hasher.go:230-260 | the documented maximum of goroutines is kept if and only if the workers divide the size or their share is below the smallest segment |
| FileCompare.LimitExceeded | internal/dirsync/hasher.go:230-260 | a file and three workers for which four goroutines start |
| FileCompare.CompareSegment | internal/dirsync/hasher.go:302-345 | a verdict "equal" means the range is equal, "unequal" means it differs or the context was cancelled |
| ParallelCompare.RunKeepsInv | internal/dirsync/hasher.go:262-291 | under every schedule each goroutine has compared a prefix of its segment, and cancelled implies a real difference |
| ParallelCompare.EveryScheduleDecides | internal/dirsync/hasher.go:230-291 | once all goroutines are finished the verdict is byte equality, whatever the schedule and the early cancellation |
| ParallelCompare.StepUsesWork | internal/dirsync/hasher.go:302-345 | every step of an unfinished goroutine uses up work, so every schedule ends |
| ParallelCompare.DifferenceStopsAll | internal/dirsync/hasher.go:262-291 | a goroutine that has found a difference has cancelled the others, and a cancelled one reads no further chunk |
| ParallelCompare.CompareParallel | internal/dirsync/hasher.go:230-291 | an arbitrary schedule, run to its end, returns byte equality |
| ParallelCompare.CompareRegularFiles | internal/dirsync/hasher.go:145-166 | the tiers agree: same inode means equal, different sizes unequal, and both content paths byte equality, for every threshold, worker count and buffer size |
| Sampler.Sampler.Record | pkg/executors/resources/sampler.go:76-90 | registers a fresh subscription with the base interval and no samples |
| Sampler.Sampler.CollectDueSubs | pkg/executors/resources/sampler.go:142-152 | returns exactly the due subscriptions and stamps exactly those |
| Sampler.Sampler.FanOut | pkg/executors/resources/sampler.go:156-175 | every due subscription still registered receives the sample or the error, and doubles its interval past the budget |
| Sampler.Sampler.Close | pkg/executors/resources/sampler.go:201-229 | the first call unregisters and filters, with the final sample on request; a later call returns the stored samples |
| Sampler.Sampler.Tick | pkg/executors/resources/sampler.go:115-135 | one turn of the runner changes every registered subscription as specified and no other |
| Sampler.Sub.FilterByInterval | pkg/executors/resources/sampler.go:233-247 | the loop computes the greedy selection |
| Sampler.SamplesAreLogarithmic | pkg/executors/resources/sampler.go:142-175 | after k doublings the interval is 2^k times the first, elapsed time is at least half of it times the budget M, at most M due turns pass at an interval before the one that doubles it, and there are at most (M+1)(k+1) samples |
| SamplerRuns.WatchExact | pkg/executors/resources/sampler.go:142-175 | after any turns a subscription holds exactly the samples of its due turns, in order, and an error exactly when the last due turn failed; a turn is due when it is the first, or at least the interval after the last due one, and the interval doubles whenever the budget has run out |
| SamplerRuns.FirstCloseExact | pkg/executors/resources/sampler.go:201-229 | and what the first Close returns then: the error of the last due turn, or that of the final sample, or the filtered samples with the final one |
| SamplerRuns.LaterCloseExact | pkg/executors/resources/sampler.go:201-205 | and what every later one returns |
| Sampler.FilterSelects | pkg/executors/resources/sampler.go:233-247 | the filter returns a subsequence that starts with the first sample and whose neighbours are at least the interval apart |
| Sampler.FilterIsLongest | pkg/executors/resources/sampler.go:233-247 | no such subsequence of samples in time order is longer |
| Sampler.FilterIsShort | pkg/executors/resources/sampler.go:233-247 | its length is at most one more than its span divided by the interval |
| Sampler.FilterKeepsSpaced | pkg/executors/resources/sampler.go:233-247 | nothing is dropped if and only if all neighbours were far enough apart |
| Sampler.CloseRepeatsIff | pkg/executors/resources/sampler.go:201-229 | exactly when a second Close returns what the first did |
| Sampler.CloseCanDiffer | pkg/executors/resources/sampler.go:201-229 | two samples after which it does not |
| Sampler.CloseIsSpacedIff | pkg/executors/resources/sampler.go:199-229 | the samples returned are at least the interval apart, as documented, if and only if the final one is not too close to the last kept |
| Sampler.FinalSampleTooClose | pkg/executors/resources/sampler.go:199-229 | a final sample that is |
| LlbGraph.DfsExact | client/llb/visitor.go:145-174 | the traversal terminates on every finite graph, cyclic ones included, and visits exactly the newly reachable vertices, each once |
| LlbGraph.VisitsReachableOnce | client/llb/visitor.go:145-174 | from the root it visits exactly the reachable vertices, without repeats |
| LlbGraph.InputsFirstIffAcyclic | client/llb/visitor.go:153-174 | every input comes before its user if and only if no cycle is reachable |
| LlbMarshal.Walker.Walk | client/llb/visitor.go:153-174 | the visitor is called in the order of the traversal up to its first error; without one the visited map is that of the traversal |
| LlbMarshal.Walker.WalkInputs | client/llb/visitor.go:166-171 | likewise for the loop over the inputs |
| LlbMarshal.UntilErrorExact | client/llb/visitor.go:153-174 | the visits end with the first vertex that is refused, or with the last one |
| LlbMarshal.Marshaller.MarshalVertex | client/llb/state.go:219-269 | succeeds if and only if every newly visited vertex marshals, and then appends their bytes in the order of Walk, later repeats of a digest dropped |
| LlbMarshal.Marshaller.MarshalInputs | client/llb/state.go:232-243 | likewise for the loop over the inputs |
| LlbMarshal.EntersEachOnce | client/llb/state.go:252-266 | the definition holds the bytes of exactly the visited vertices, each digest once, in step with the digest set |
| LlbMarshal.MetadataIsFirst | client/llb/state.go:252-266 | the metadata of a digest are those of the first visited vertex with its bytes |
| LlbMarshal.EntersInputsFirst | client/llb/state.go:219-269 | every entry is preceded by the entries of all inputs of a vertex it belongs to |
| LlbMarshal.DefinitionIsTopological | client/llb/state.go:164-269 | on an acyclic graph every reachable vertex is in the definition once and every digest an entry refers to is that of an earlier entry |
| LlbMarshal.Marshal | client/llb/state.go:164-215 | the definition is the traversal plus a terminal entry, and Head of it is the root vertex's digest; an empty state gives an empty definition |
| Lru.Shard.Get | pkg/layermerkle/cache.go:128-135 | hit or miss as in the list of items, a hit moves to the front; map and list agree, size within the capacity |
| Lru.Shard.Set | pkg/layermerkle/cache.go:146-158 | updates in place and moves to the front, or evicts the last item of a full shard and pushes |
| Lru.Shard.EvictOldest | pkg/layermerkle/cache.go:160-169 | removes exactly the last item from list and map |
| Lru.Shard.Delete | pkg/layermerkle/cache.go:180-187 | removes exactly the key |
| Lru.Shard.DeleteLayer | pkg/layermerkle/cache.go:190-202 | removes exactly the keys of the layer and keeps the order of the others |
| Lru.RunOk | pkg/layermerkle/cache.go:128-202 | after any calls: at most cap items, distinct keys, and every item is the latest Set of its key since its last deletion |
| Lru.HitIsLatest | pkg/layermerkle/cache.go:128-135 | a hit is the latest Set of the key since its last deletion |
| LruForgets.LostOnlyAfterManyOthers | pkg/layermerkle/cache.go:146-169 | a key that was set and not deleted is missing only after at least cap distinct other keys were set or hit since it last was |
| LruForgets.PresentIff | pkg/layermerkle/cache.go:128-169 | while nothing is deleted, a key that was set is there if and only if fewer than cap other keys were set or hit since it last was |
| LruForgets.ShardedHitIsLatest | pkg/layermerkle/cache.go:114-144 | for every assignment of keys to shards, a hit of the sharded cache is the latest Set among all calls |
| RingCache.RingStatCache.constructor | pkg/layermerkle/ringcache.go:46-54 | the documented minimum capacity; all slots invalid |
| RingCache.RingStatCache.Get | pkg/layermerkle/ringcache.go:58-71 | the scan finds the result of the valid slot of the key, if any |
| RingCache.RingStatCache.Set | pkg/layermerkle/ringcache.go:74-94 | an existing key is updated where it is; a new one replaces the slot under the hand, which moves on |
| RingCache.RingStatCache.InvalidateLayer | pkg/layermerkle/ringcache.go:97-105 | invalidates exactly the slots of the layer |
| RingCache.SetRefines | pkg/layermerkle/ringcache.go:74-94 | Set on the slot array refines Set on a map whose entries age with each new key and leave at age cap |
| RingCache.RunRefines | pkg/layermerkle/ringcache.go:58-105 | so does every sequence of changes |
| RingCache.RingIsForgettingMap | pkg/layermerkle/ringcache.go:58-105 | the ring answers exactly like that map, and no key is valid in two slots |
| RingCache.RememberedIsLatest | pkg/layermerkle/ringcache.go:58-94 | what is remembered is the latest result stored |
| RingCache.StoringAgainKeepsAges | pkg/layermerkle/ringcache.go:66-94 | storing a key again changes its result and nothing else |
| RingCache.StaysExactly | pkg/layermerkle/ringcache.go:74-105 | unless its layer is invalidated, an entry is still there if and only if fewer than cap new keys were inserted, counting its age: a fresh one outlives cap - 1 |
| Whiteout.FindOpaqueAncestor | pkg/layermerkle/whiteout.go:96-107 | the loop over the ancestors finds a marker exactly when a proper ancestor below the root has one |
| Whiteout.Index.Build | pkg/layermerkle/whiteout.go:128-162 | the index holds what the names of the walk mask, the base name of the diff directory included |
| Whiteout.Index.VisitEntry | pkg/layermerkle/whiteout.go:132-158 | one entry adds exactly the marks of it and everything below |
| Whiteout.Index.WalkDir | pkg/layermerkle/whiteout.go:132-158 | the walk adds exactly the marks of all paths below |
| Whiteout.IndexAnswers | pkg/layermerkle/whiteout.go:128-179 | for every tree and path: the index answers like the direct lookups, except for markers of ".wh." names and for its base name |
| Whiteout.IndexAgreesIff | pkg/layermerkle/whiteout.go:82-179 | the exact condition, in terms of the path, the base name and the markers, under which the two agree |
| Whiteout.IndexAgrees | pkg/layermerkle/whiteout.go:82-179 | they agree on every path whose last component does not start with ".wh." when the base name does not either |
| Whiteout.IndexMissesMarkedMarker | pkg/layermerkle/whiteout.go:128-179 | a tree on which they do not |
| Whiteout.OpaqueRootIsMissed | pkg/layermerkle/whiteout.go:17-35 | a path the plain resolver masks and the compliant one does not |
| Whiteout.CompliantExtendsPlainIff | pkg/layermerkle/whiteout.go:17-35 | what the plain resolver masks the compliant one masks too, if and only if it is not a bare name under an opaque root without its own marker |
| OwnerLookup.StatExact | pkg/layermerkle/resolver.go:164-186 | a layer hides a path exactly when its tree has, beside it, the opaque marker or the marker of its name; it has the path exactly when its tree does and it does not hide it |
| OwnerLookup.OwnerIsTopmost | pkg/layermerkle/resolver.go:94-115 | told by the layers' trees: the owner is the topmost layer that has the path with no marker for it in that layer or above; the whiteout result and not-found are characterised in the same way |
| OwnerLookup.OverlayResolver.constructor | pkg/layermerkle/resolver.go:80-89 | an empty cache with the default capacity for a non-positive one |
| OwnerLookup.OverlayResolver.StatInLayer | pkg/layermerkle/resolver.go:137-161 | cached or not, the result is that of the file system, and the cache stays within its capacity |
| OwnerLookup.OverlayResolver.FindOwnerLayer | pkg/layermerkle/resolver.go:94-115 | the cached scan returns the specified owner |
| OwnerLookup.OverlayResolver.DiffAbsPath | pkg/layermerkle/resolver.go:118-134 | a path exactly for a file the layer has and does not hide |
| OwnerLookup.OverlayResolver.InvalidateLayer | pkg/layermerkle/resolver.go:188-196 | forgets exactly the results of the layer |
| StackKey.JoinInjective | pkg/layermerkle/layer.go:134-140 | identifiers without a bar joined by bars determine the stack |
| StackKey.JoinIff | pkg/layermerkle/layer.go:134-140 | two stacks have one join if and only if they are the same once every identifier is cut at its bars |
| StackKey.KeyIff | pkg/layermerkle/deduplicator.go:156-158 | two requests get one singleflight key if and only if their paths are equal and their stacks are the same once cut at the bars, for all identifiers and all paths without NUL, or all paths and identifiers without NUL |
| StackKey.KeyInjective | pkg/layermerkle/deduplicator.go:156-158 | for digests, which hold neither separator, the key determines stack and path |
| StackKey.BarConfusesStacks | pkg/layermerkle/deduplicator.go:156-158 | an identifier that holds the separator is confused with two |
| StackKey.NulConfusesParts | pkg/layermerkle/deduplicator.go:156-158 | with NUL in an identifier and in a path the two parts run into each other |
| Dedup.DisciplineSuffices | pkg/layermerkle/deduplicator.go:58-158 | requests with proper identifiers and one stack per top layer may share cache entries and calls |
| Dedup.OwnerEntryGood | pkg/layermerkle/deduplicator.go:140-146 | the entry stored for the owner misleads no request |
| Dedup.TopEntryGood | pkg/layermerkle/deduplicator.go:116-146 | nor does the entry stored for the requesting layer |
| Dedup.AnswerExact | pkg/layermerkle/deduplicator.go:58-153 | the uncached answer, told by the layers' trees: deleted exactly when the topmost layer that has or hides the path hides it, no owner exactly when none does either, else that layer's hash or its error |
| Dedup.OfferedExact | pkg/layermerkle/deduplicator.go:112-146 | what a slow resolution stores: the owner's entry when the file was hashed, the requesting layer's unless it is the owner, nothing without a hash |
| Dedup.Engine.ResolveSlowly | pkg/layermerkle/deduplicator.go:93-153 | the slow path returns the uncached answer, stores exactly the specified entries and keeps the cache invariant |
| Dedup.Engine.Resolve | pkg/layermerkle/deduplicator.go:58-90 | all three paths return the hash of the file in the owner layer, or the error of the uncached lookup, with a cache that may evict anything |
| DedupRuns.RunKeepsInv | pkg/layermerkle/deduplicator.go:58-153 | the cache and coalescing invariant holds in every interleaving of callers and evictions |
| DedupRuns.Transparent | pkg/layermerkle/deduplicator.go:58-153 | every caller, coalesced or not, gets the uncached answer, whatever is evicted and when |
| DedupRuns.DisciplinedIsTransparent | pkg/layermerkle/deduplicator.go:58-158 | in particular whenever identifiers are digests and equal top layers mean equal stacks |
| DedupRuns.TwoStacksOneTop | pkg/layermerkle/deduplicator.go:70-146 | two stacks that share a top layer without the file: a run in which the second caller gets the first one's hash |
| DedupRuns.WrongByTop | pkg/layermerkle/deduplicator.go:70-146 | two requests with one top layer and path but different answers: a run in which the second gets the first's hash |
| DedupRuns.WrongByKey | pkg/layermerkle/deduplicator.go:85-91 | and with one key: a run in which the second is coalesced into the first |
| DedupRuns.TransparentIff | pkg/layermerkle/deduplicator.go:58-158 | all runs are transparent if and only if any two requests with one top layer and path, or with one key, have the same answer to share |
| DedupRuns.OneCallPerKey | pkg/layermerkle/internal/singleflight/singleflight.go:28-55 | never two callers work on one key at a time |
| DedupRuns.NobodyIsStuck | pkg/layermerkle/internal/singleflight/singleflight.go:28-55 | as long as a caller has no answer, some caller can move |
| DedupRuns.AtMostNineMoves | pkg/layermerkle/deduplicator.go:58-153 | no caller makes more than nine moves in any run |
| DedupCaching.ResolvedIsCached | pkg/layermerkle/deduplicator.go:68-82 | as long as nothing is evicted, once a file was resolved every later request under that top layer gets its hash in the first step |
| Wal.Uint32Put | pkg/layermerkle/persistent.go:227-229 | the length prefix is read back as written, truncated to 32 bits |
| Wal.ReadWAL | pkg/layermerkle/persistent.go:237-271 | the loop returns the readable records from the start of the file on, and their number |
| Wal.ReadEntry | pkg/layermerkle/persistent.go:242-266 | one turn reads exactly the next record or finds that there is none |
| Wal.WholeExact | pkg/layermerkle/persistent.go:237-271 | the number of entries wholly inside a prefix is the largest whose frames fit |
| Wal.ReplayPrefix | pkg/layermerkle/persistent.go:221-271 | for every byte prefix of a log, replay returns exactly the entries wholly inside it |
| Wal.ReplayJoin | pkg/layermerkle/persistent.go:221-271 | entries appended after a clean end are read back after the earlier ones |
| Wal.OversizedHidesTheRest | pkg/layermerkle/persistent.go:221-256 | an entry above 1 MiB, which is written without complaint, hides itself and everything after it |
| Wal.BadPayloadHidesTheRest | pkg/layermerkle/persistent.go:257-266 | a record whose payload cannot be decoded hides itself and everything after it |
| Wal.ReplayCompleteIff | pkg/layermerkle/persistent.go:221-271 | a complete log is read back completely if and only if every entry has 1 byte to 1 MiB |
| Wal.AppendsKeptIff | pkg/layermerkle/persistent.go:75-101 | whatever bytes lie behind the last whole entry, appended entries are all read back after a restart if and only if there are none; the codec need only decode what it encodes, and have two entries whose frames differ only behind the length of a third |
| Wal.TornEntryLosesAppends | pkg/layermerkle/persistent.go:75-101 | in particular for every prefix of a torn entry: if and only if it is empty |
| Wal.TornPayloadSwallows | pkg/layermerkle/persistent.go:245-258 | a tail that holds a header hides everything appended until its missing bytes are there |
| Wal.MixedHeader | pkg/layermerkle/persistent.go:245-252 | a tail of less than a header is completed by the next header to this length |
| Wal.TornHeaderHides | pkg/layermerkle/persistent.go:245-256 | and if that is not the length of a record, everything appended is lost |
| Wal.AppendAfterTornByteIsLost | pkg/layermerkle/persistent.go:245-256 | after one torn byte, an entry of at least 4097 bytes is lost with everything after it |
| Wal.AppendAfterCleanEndIsKept | pkg/layermerkle/persistent.go:95-99 | after a clean end nothing is |
| PersistentCache.ApplyAll | pkg/layermerkle/persistent.go:86-92 | the replay loop leaves the shard as the same calls would |
| PersistentCache.Cache.Open | pkg/layermerkle/persistent.go:75-101 | opening replays exactly the readable entries and counts them |
| PersistentCache.Cache.AppendWAL | pkg/layermerkle/persistent.go:171-195 | a write that fails leaves the bytes that reached the file and the counter as it was; a compaction that is due resets the counter |
| PersistentCache.CounterCounts | pkg/layermerkle/persistent.go:171-195 | the counter counts the records that reached the file whole, modulo the threshold when compactions succeed and without end when none does |
| PersistentCache.Cache.Set | pkg/layermerkle/persistent.go:109-117 | the key is set in memory in any case, and the record, or what reaches the file of it, is appended |
| PersistentCache.Cache.Delete | pkg/layermerkle/persistent.go:120-128 | likewise for a deletion marker |
| PersistentCache.LatestIsLastSet | pkg/layermerkle/persistent.go:109-128 | the latest Set of the replayed calls is that of the log |
| PersistentCache.HitsAfterCrash | pkg/layermerkle/persistent.go:75-128 | after a crash at any byte and a restart, every hit is the last Set of its key not followed by a Delete among the completely written entries |
| RingSize.NextIsLeast | internal/dirsync/batcher_io_uring.go:511-522 | the bit trick gives the least power of two at or above n for 1 <= n <= 2^31, 0 above, 1 for 0 |
| RingSize.NextPowerOfTwo | internal/dirsync/batcher_io_uring.go:511-522 | the word-level assignments compute it |
| RingSize.RingSizeFor | internal/dirsync/batcher_io_uring.go:321-328 | rounds up, then caps |
| RingSize.Cap | internal/dirsync/batcher_io_uring.go:321-328 | never zero |
| RingSize.RoundingIff | internal/dirsync/batcher_io_uring.go:320-328 | that is the documented size, the smaller of work and entries rounded up, if and only if the entries are a power of two or suffice for the rounded work |
| RingSize.HundredEntries | internal/dirsync/batcher_io_uring.go:320-328 | an input for which it is not |
| RingSize.CapKeepsPower | internal/dirsync/batcher_io_uring.go:321-328 | the ring is a power of two when the configured entries are |
| RingSize.CapHolds | internal/dirsync/batcher_io_uring.go:321-328 | and it holds all the work unless it is capped |
| IoRing.MaskedSlotIsSlot | internal/dirsync/batcher_io_uring.go:385-385 | the wrapping 32-bit sum, masked with a power of two less one, is the remainder of the position by the ring size, past the end of the word too |
| IoRing.SlotsAreDistinct | internal/dirsync/batcher_io_uring.go:384-406 | the submissions of one chunk never share a slot |
| IoRing.Ring.Submit | internal/dirsync/batcher_io_uring.go:384-412 | after the chunk is written, every slot holds the last index written to it, and the tail has advanced by the chunk |
| IoRing.Ring.FlushNext | internal/dirsync/batcher_io_uring.go:377-428 | one turn of the chunk loop, with what is left to execute after it |
| IoRing.Ring.Enter | internal/dirsync/batcher_io_uring.go:415-419 | the kernel is handed what the slots hold by then |
| IoRing.Ring.FlushChunk | internal/dirsync/batcher_io_uring.go:378-428 | one turn carries out what the kernel took, and the chunk by the fallback when it did not take all |
| IoRing.Ring.Flush | internal/dirsync/batcher_io_uring.go:378-480 | the chunk loop executes the specified sequence, with the tail equal to the number submitted throughout |
| IoRing.AllTakenInOrder | internal/dirsync/batcher_io_uring.go:378-480 | when every enter call completes its chunk, each operation is carried out once and in order |
| IoRing.CleanRunsEach | internal/dirsync/batcher_io_uring.go:378-480 | under the condition below every operation is carried out exactly once |
| IoRing.UncleanRepeats | internal/dirsync/batcher_io_uring.go:378-480 | and otherwise some operation is carried out again |
| IoRing.ExactlyOnceIffClean | internal/dirsync/batcher_io_uring.go:415-428 | each operation is carried out exactly once if and only if no enter call takes a chunk in part and none takes one behind a backlog that is not a multiple of the ring |
| IoRing.FullRingIsClean | internal/dirsync/batcher_io_uring.go:415-428 | in a ring as large as a chunk that is: if and only if no enter call takes a chunk in part |
| IoRing.AtLeastOnceIff | internal/dirsync/batcher_io_uring.go:415-428 | in a ring as large as a chunk no operation is lost if and only if the last chunk is as long as the ring, is not taken whole, or its backlog is a multiple of the ring |
| IoRing.FullChunkCovers | internal/dirsync/batcher_io_uring.go:384-419 | a chunk as long as the ring and taken whole is carried out completely behind any backlog |
| IoRing.ShortChunkMisses | internal/dirsync/batcher_io_uring.go:384-428 | a shorter last chunk taken whole behind another backlog leaves out one of its operations |
| IoRing.OddEntriesRepeat | internal/dirsync/batcher_io_uring.go:193-199 | with 100 configured entries and 128 slots, one failed enter call makes the next, complete one carry an operation out twice and another not at all |
| IoRing.PartialTakeLoses | internal/dirsync/batcher_io_uring.go:415-428 | with 64 slots and 100 operations, a partial enter call makes the next, complete one do the same |
| TarScan.SeekFile | pkg/converter/nydus/convert_unix.go:107-163 | the loop ends on every input, never uses an offset outside the blob, and a find is a range of it in front of its header |
| TarScan.LastNamedIsLast | pkg/converter/nydus/convert_unix.go:139-155 | what "the last file of the name" means |
| TarScan.ScanInFront | pkg/converter/nydus/convert_unix.go:118-160 | the scan never depends on what is behind the header it stands on |
| TarScan.ScanUndoesLayout | pkg/converter/nydus/convert_unix.go:107-163 | on every blob of data and header pairs the scan returns exactly the offset and data of the last file of the name, the size error for an oversized one, or not-found |
| TarScan.ScanTellsWhy | pkg/converter/nydus/convert_unix.go:107-163 | on any bytes the scan passes over files of other names, each lying in front of its header, and then stops for exactly the reason it gives |

## Left out

- The pipeline's fast path for an image without layers, and its default number of workers.
- Label parsing: an event carries the parsed sequence number, or none.
- The snapshotter's active snapshots, mounts and Remove; what Prepare, Mounts and the action
  return are parameters of `Pipeline.ProcessEvent`.
- Copying of commit options before the parent is appended: options are values here.
- Machine widths of offsets, sizes, counters and durations: integers are unbounded except
  for the 32-bit words of the ring and of the log's length prefix.
- Read errors, symlink following and cancellation in the tree walks and in the pruner; I/O
  errors in the file comparison.
- The pruner's concrete filter and its check of required paths: the filter is any predicate.
- Wildcards and negation in patterns; required paths of the filter.
- The completion queue of the ring: how results are read and errors classified. An operation
  counts as carried out when the kernel takes its entry or the fallback runs it.
- Goroutine and fallback batchers, including their behaviour under cancellation and Close.
- The digest tier, symlink and directory comparison of the hasher, and its buffer pool.
- The sampler's ticker and locks: each method is one atomic turn.
- Source maps, constraints, caps and protobuf of LLB; asynchronous state values; map and
  chain visitors.
- The LRU's list elements: a shard keeps a recency list of keys beside its map, so pointer
  identity of elements is not modelled. The hash that picks a shard is any function.
- Statistics, hooks, observers, the TTL, no-op and instrumented caches.
- PersistentCache.Cache: one shard stands for the sharded inner cache
  (`LruForgets.ShardedHitIsLatest` relates the two); a closed log and a failing encoder are
  not modelled; DeleteLayer never reaches the log.
- Context cancellation in `Resolve`, panics of the hasher, and the owner and vertex fields
  of results, which are not exact on cached or coalesced ones.
- The resolver variant on the ring cache, the static resolver, and unregistering a layer
  while requests run: diffs and registry are immutable.
- Vertex processing, Merkle trees, provenance and fan-out of events.
- TarScan.SeekFile: headers are single 512-byte blocks, so extended headers that span several
  blocks are not modelled; what the handler does with the data is a parameter.
- Everything else in the repository: s3 proxy, stores, executors' process control, reports,
  front ends.
