# Inference budget controller: a verified model

This project models the four parts of the inference budget controller in which something can go wrong
in more than one place at once, and proves what they promise.

1. **Memory budget, registry and eviction.** `Budget` holds the tracker as a class and as the state
   machine its locked methods step through; `Registry` the deployment registry with its LRU listing;
   `RequestCounts` the request handlers under every interleaving; `SingleFlight` the mutex around pod
   creation; `Proxy` the evictor, the pod creation path and the controller's release steps;
   `ClusterRuns` the whole system over whole runs.
2. **GGUF headers.** `GgufGrammar` says what a header means at a position of the input, `GgufParser`
   is the stateful reader proved against it, `GgufEncoding` the writer and both directions of the
   round trip, `GgufBounds` the tensor bounds in `uint64`/`int64` and in exact arithmetic.
3. **Downloads.** `Chunks` splits a file, `WorkerPool` is the concurrent part of a chunked download,
   `Disks` a file system that remembers every state it has been in, `Download` one file through the
   whole fallback chain, `ChunkRuns` the workers of the pool writing their parts on that disk,
   `StaleWorkers` the workers a failed pool leaves behind beside a later download, `Progress` the reader
   that reports its bytes, `DownloadStatus` and `Manager` one model from the first status to the manifest, `ManagerRuns` all downloads together, `Markers` the marker and manifest files on disk,
   `ReadyMarker` the protocol between reconciler, goroutine, disk and crashes.
4. **Xet containers and URLs.** `ByteGrouping` the byte permutation, `Xorb` the container, its iterator
   and both reconstructions, `HuggingFaceUrl` the URL printer and parser.

`Bytes`, `MapSums` and `Options` are shared helpers. The GGUF layout follows the GGUF specification
(`docs/gguf.md` of ggml, section "File Structure"); ranges follow sections 14.1.2 and 15.5.17 of
RFC 9110.

Each method that changes state is proved against a function or predicate of the old and new state;
the theorems about runs are about those functions. I/O results, map iteration order, scheduling, time
and crashes are arbitrary: nondeterministic choices, parameters, or steps of a state machine. Memory
quantities are non-negative integers (bytes), times are integers, percentages are exact rationals.

## Where the code does not do what it or its documentation says

Each of these is kept as the code has it, with a lemma for the exact condition or a concrete run.

- A node selector with several entries has no determined pool (`PoolDeterminedIff`); counters stay exact
  in every run of a selector if and only if it has at most one entry (`ExactIffOneEntry`).
  `SetNodeBudget` on a pool with allocations leaves the counter off by what they held
  (`CounterIsSumMinusInitial`). A move between pools overfills the new one exactly when the model's
  whole memory does not fit (`AllocationFitsIff`). The documentation's per-node budgets also depend on
  `SetNodeBudget`, which nothing outside the tests calls.
- A memory string that is not a quantity makes a handler panic after `RecordRequest` and before its
  `FinishRequest` is deferred. The panic is recovered, the request is lost, and the model is never idle
  again (`StepKeepsWithinIff`, `CountsAreSafe`, `LossIsPermanent`, `MalformedMemoryLeaks`).
- The first request for a model that the registry does not know only waits: recording it makes an entry in
  state Creating, and nobody creates the pod (`FirstStageIff`).
- The single-flight mutex is deleted after its unlock: it lets in one request at a time, under every
  schedule, if and only if there are at most two (`ExclusiveIffTwo`).
- The documentation says the controller rebuilds the budget after a restart; the code does not, and
  running pods are then unaccounted for (`RestartCoverageIff`). Eviction releases a model after a
  failed lookup of its pod (`EvictionCoverageIff`), deletion of the resource releases a model with its
  pod running (`ReleaseCoverageIff`), and so does a reconcile whose lookup precedes a creation. Two
  models checked at once exceed the limit together exactly if they do not fit together
  (`CommitIff`, `RacingChecksIff`).
- `tryEvictIdleModelsForGlobalLimit` returns false when nothing is idle, even if nothing needs freeing;
  its caller never asks then.
- Tensor sizes wrap: a tensor of 2^66 bytes passes the bounds check of a 64-byte file
  (`OverflowIsAccepted`, `VerdictExactIff`, `EndExactIff`).
- The chunk count overflows for a size within one chunk of 2^63, and the file is cut to its first chunk
  (`PlanAssemblesIff`).
- An answer that ignores `Range` is accepted. On a resume the whole file is appended to what is there
  (`ResumeCompletesIff`); for a chunk the whole file is taken for the part (`ChunkAnswerIff`), and the
  joined parts are the file exactly if every part is its range (`AssemblyIff`, `IgnoredRangesRepeat`).
  The size of the file is reported as success all the same.
- The HTTP part of the fallback chain asks for the branch `main`, whatever branch the specification
  names: `DownloadFile` leaves the branch's file for Xet and the main one's for every other way, and a
  resume after an interrupted Xet download may join the two.
- The progress of a chunk may stop short of its size: bytes read shortly before the end of the body stay
  pending, as the end itself comes with no bytes (`AllReportedIff`).
- `RemoveStatus` may discard the status of a live download (`StepKeepsLiveTrackedIff`,
  `CarelessRemoval`).
- Two errors about the marker are passed over: a failed removal before the files are deleted
  (`IgnoredFailure`), and a failed lookup, which reads as no marker, so that a download starts beside
  an intact one (`OverlookedMarker`). Nothing else takes deletion or download to a marker
  (`StepKeepsTrustedIff`), and a run is safe if and only if no step deletes what a marker vouches for,
  or starts a download, beside it (`RunIsSafeIff`).
- The workers of a failed chunked download are not stopped. A later download of the same model assembles
  only accepted parts, under every schedule, if and only if none of them has a chunk or can take one
  (`LaterDownloadIff`, `LeftBehind`).
- `undoByteGrouping4Partial` reads multiples of the word count instead of the tail
  (`PartialUndoIff`). The example in the comment of `undoByteGrouping4` shows another layout than the
  code has; the proofs are about the code.
- A range of a xorb that ends beyond the fetched bytes panics or, within the buffer's capacity, silently
  reads what lies there (`FetchedOnlyIff`).
- A namespace `hf.co` is taken for a host (`WebFormIff`, `ParseOfStringIff`, `ParsePrintParseIff`), and
  a directory `main` or `master` in an `hf://` URL for a branch (`HFFormIff`).

## Model

| member | source | states |
|---|---|---|
| Budget.NodeSelectorKey | internal/budget/tracker.go:324-333 | the key is one the selector can yield |
| Budget.Tracker.SetNodeBudget | internal/budget/tracker.go:114-126 | the new tracker state is the step `SetBudget`: totals change, counters start at 0 and are otherwise kept |
| Budget.Tracker.SyncAllocation | internal/budget/tracker.go:84-111 | a step `Sync` of the state machine; reports whether the allocation is new; checks no budget |
| Budget.Tracker.CanAllocate | internal/budget/tracker.go:129-158 | the answer for the pool keys of its one or two lookups, whatever the selector; with at most one entry, exactly whether the pool has room, a model that already holds memory being charged the difference |
| Budget.Tracker.CanAllocateLocked | internal/budget/tracker.go:198-225 | exactly whether the pool the selector yielded has room |
| Budget.Tracker.Allocate | internal/budget/tracker.go:161-195 | a step `Allocate`: succeeds exactly when there is room, moves the old memory out of the old pool and the new into the new pool, changes nothing on failure |
| Budget.Tracker.ReleaseModel | internal/budget/tracker.go:228-240 | a step `Release`: the allocation and its charge disappear |
| Budget.Tracker.GetTotalAllocatedMemory | internal/budget/tracker.go:288-299 | the sum over all allocations, in whatever order the map is walked |
| Budget.RendersOnce | internal/budget/tracker.go:324-333 | a selector with at most one entry has exactly one key |
| Budget.PoolDeterminedIff | internal/budget/tracker.go:324-333 | the key is determined if and only if the selector has at most one entry |
| Budget.StepKeepsDrift | internal/budget/tracker.go:84-240 | no step changes the difference between a pool's counter and what its models hold |
| Budget.RunKeepsDrift | internal/budget/tracker.go:84-240 | nor does any run |
| Budget.CounterIsSumMinusInitial | internal/budget/tracker.go:114-126 | in every run from the empty tracker a counter is the sum of its pool's allocations minus what they were when the pool was created |
| Budget.SeveralEntriesDrift | internal/budget/tracker.go:324-333 | for every selector with several entries a run leaves a counter off by any amount with nothing allocated |
| Budget.ExactIffOneEntry | internal/budget/tracker.go:84-240 | every run of a selector leaves every counter whose budget was set in time exact, if and only if the selector has at most one entry |
| Budget.RoomIff | internal/budget/tracker.go:198-225 | where the counter is exact and the model stays in its pool, the check admits exactly what leaves the sum of the pool's models within the total |
| Budget.StepBound | internal/budget/tracker.go:161-225 | one step exceeds a pool's total by at most the synced memory, the old memory of a model that a successful allocation moves in, or the amount the total is lowered below what it covered |
| Budget.RunBound | internal/budget/tracker.go:84-240 | every run exceeds a total by at most the sum of these amounts |
| Budget.OnlySyncsExceed | internal/budget/tracker.go:84-240 | while models keep their pool and no total is lowered below its counter, a run exceeds a total by at most the memory ever synced into the pool |
| Budget.SyncExceedsTotal | internal/budget/tracker.go:84-111 | that bound is attained, for every selector of one entry or none, total and memory |
| Budget.AllocationFitsIff | internal/budget/tracker.go:161-225 | a successful allocation keeps a pool within its total if and only if the model does not come from another pool or its whole memory fits |
| Budget.MoveExceedsTotal | internal/budget/tracker.go:161-225 | the bound on a move is attained, for every pair of pools, total and memory |
| Budget.ReleaseKeepsRoom | internal/budget/tracker.go:228-240 | releasing another model never takes away room |
| Budget.ReleaseTotal | internal/budget/tracker.go:228-240 | a release lowers the allocation total by exactly the model's memory |
| Registry.DeploymentRegistry.Get | internal/registry/registry.go:85-94 | the entry if there is one |
| Registry.DeploymentRegistry.SetState | internal/registry/registry.go:98-117 | the state changes, request count and times stay; a missing entry is created |
| Registry.DeploymentRegistry.RecordRequest | internal/registry/registry.go:121-141 | the count goes up by one and the time of the request is set, also for an existing entry; a missing entry starts at one |
| Registry.DeploymentRegistry.FinishRequest | internal/registry/registry.go:145-155 | the count goes down by one, never below zero; a missing entry stays missing |
| Registry.DeploymentRegistry.Delete | internal/registry/registry.go:159-165 | the entry disappears, the others stay |
| Registry.DeploymentRegistry.GetIdleEntriesSorted | internal/registry/registry.go:199-221 | lists every idle model, no other and none twice, oldest request first |
| Registry.SortByLastRequest | internal/registry/registry.go:215-218 | the same models, oldest first |
| Registry.IdleAfterUseIff | internal/registry/registry.go:121-155 | after a request recorded and finished a model is idle at a cutoff if and only if no other request is active and the cutoff is later than the request |
| RequestCounts.StepCounts | internal/registry/registry.go:98-165 | a step keeps a model's count within its requests recorded and not finished, and equal to them unless its entry is deleted while there are some |
| RequestCounts.StepKeepsInv | internal/proxy/handler.go:196-357 | for all models at once, with the exact condition for the counts to stay exact |
| RequestCounts.StepKeepsWithinIff | internal/proxy/handler.go:196-357 | a step keeps all counts within the requests in flight if and only if it does not unwind a handler of a model whose count has no slack |
| RequestCounts.RunKeepsInv | internal/proxy/handler.go:420-577 | for all interleavings of both handlers |
| RequestCounts.CountsAreSafe | internal/proxy/handler.go:196-357 | over every interleaving: one FinishRequest per RecordRequest, or none for a handler ended by a panic; counts never exceed the requests in flight and lost, and match those in flight if and only if none is lost, entries being deleted only when quiet |
| RequestCounts.ParsedCountsAreSafe | internal/proxy/handler.go:420-577 | if every memory string parses, counts never exceed the requests in flight, are zero when there are none, and are exact if entries are deleted only then |
| RequestCounts.LossIsPermanent | internal/registry/registry.go:199-213 | a model with lost requests is never idle again while its entry is not deleted |
| RequestCounts.MalformedMemoryLeaks | internal/proxy/handler.go:213-224 | from any start, one request with such a string leaves a count of 1 with nothing in flight |
| RequestCounts.FirstStageIff | internal/proxy/handler.go:196-275 | a request dispatched as it was recorded creates a pod if and only if the registry has the model as nonexistent; for an unknown model it only waits |
| RequestCounts.PanicsIff | internal/proxy/handler.go:213-260 | where a memory string that does not parse ends a handler, by whether its model is ready |
| RequestCounts.StagesHaveCauses | internal/proxy/handler.go:196-357 | in every run a request is forwarded only for a model found ready or waited for, and creates a pod only where none was or one has been deleted |
| RequestCounts.LastUse | internal/registry/registry.go:98-141 | in every run an entry has the time of the last step that recorded a request for its model or made the entry |
| RequestCounts.IdleIsUnused | internal/registry/registry.go:199-221 | in every run with rising times, a model idle at a cutoff has no request recorded at or after it |
| RequestCounts.ListingIsLeastRecentlyUsed | internal/registry/registry.go:199-221 | the listing has exactly the models without a request in flight whose last use is before the cutoff, in the order of those uses |
| SingleFlight.RunKeepsInv | internal/proxy/handler.go:1271-1278 | until somebody has left, all callers hold the mutex of the map; each mutex lets in one |
| SingleFlight.ExclusiveIffTwo | internal/proxy/handler.go:1271-1278 | creation is exclusive under every schedule if and only if there are at most two callers |
| Proxy.Server.EvictIdle | internal/proxy/handler.go:887-926 | one idle model is skipped, kept, or evicted; what it adds to the freed total is exactly the drop of the allocation total |
| Proxy.Server.TryEvictIdleModelsForGlobalLimit | internal/proxy/handler.go:870-942 | success means the recheck passes; victims are idle, never the requested model, taken oldest first, and without the last one too little is free; failure means all idle models were tried and together free too little; without a failed call each was evicted unless skipped |
| Proxy.WalkExtends | internal/proxy/handler.go:887-935 | one turn of the loop extends the walk over the idle models |
| Proxy.Server.CheckGlobalLimit | internal/proxy/handler.go:1292-1324 | passes exactly when the request fits after any eviction; evicts only when it did not fit |
| Proxy.Server.CreatePodAndAllocate | internal/proxy/handler.go:1326-1365 | every outcome of the creation path with exactly its effect on pods, tracker and registry, and its cause; without a failed call a pod whose allocation failed is deleted again |
| Proxy.Server.CreateAndAllocate | internal/proxy/handler.go:1280-1365 | the whole path up to the allocation is one `Create` step |
| Proxy.Server.WaitForPodReady | internal/proxy/handler.go:1384-1446 | ready: state and allocation are synced; time-out: the state is reset; cancelled: nothing |
| Proxy.Server.ReconcilePodMissing | internal/controller/inferencemodel_controller.go:187-219 | memory is released exactly for a pod that does not exist, unless its lookup fails |
| Proxy.Server.UpdateStatus | internal/controller/inferencemodel_controller.go:741-753 | a pod read as ready sets the state, nothing else |
| Proxy.Server.WaitForPodDeleted | internal/proxy/handler.go:1449-1485 | the entry goes exactly when a lookup does not find the pod |
| Proxy.Server.DeleteIdlePod | internal/controller/inferencemodel_controller.go:598-650 | pod, entry and memory go together, unless requests are in flight, the model is already scaled down, or a call fails |
| Proxy.AllocationSucceeds | internal/proxy/handler.go:1287-1365 | in a serial run the allocation after the check never fails, evictions included |
| ClusterRuns.EvictionKeepsSafe | internal/proxy/handler.go:870-942 | an eviction with accurate lookups keeps every pod accounted for |
| ClusterRuns.StepKeepsSafe | internal/proxy/handler.go:1262-1365 | every step of proxy, controller and surroundings keeps the running pods safe |
| ClusterRuns.RunsAreSafe | internal/proxy/handler.go:1262-1365 | in every run every pod has an allocation and the pods together never exceed the limit, even while syncs push the allocation total above it |
| ClusterRuns.StepAccounts | internal/proxy/handler.go:1262-1446 | memory is given back in full with a missing or idle pod, and held once a pod is created or found ready |
| ClusterRuns.FailureIsRetried | internal/proxy/handler.go:1334-1410 | after a failed creation, a time-out or a missing pod the next request creates the pod again |
| ClusterRuns.StepKeepsReadyIff | internal/proxy/handler.go:1280-1285 | a step keeps every ready model's pod there, unless it is the loss of that pod from outside or reports a pod that is gone as ready |
| ClusterRuns.ReadyThroughoutIff | internal/proxy/handler.go:1280-1285 | in every run ready models have pods at every moment if and only if no step is one of these |
| ClusterRuns.EvictionCoverageIff | internal/proxy/handler.go:909-926 | an eviction uncovers a pod exactly when its lookup failed and it exists |
| ClusterRuns.ReleaseCoverageIff | internal/controller/inferencemodel_controller.go:254-276 | a bare release uncovers exactly an existing pod |
| ClusterRuns.RestartCoverageIff | internal/budget/tracker.go:73-79 | after a restart pods are covered exactly when there are none |
| ClusterRuns.CommitIff | internal/proxy/handler.go:1293-1365 | whatever came between a check and its allocation, the allocations stay within the limit if and only if the check would pass again, and the running pods if and only if the new one fits beside them |
| ClusterRuns.RacingChecksIff | internal/proxy/handler.go:1293-1365 | two models checked before both are allocated stay within the limit if and only if they fit together |
| ClusterRuns.RacingChecksExceedLimit | internal/proxy/handler.go:1293-1365 | such a race |
| GgufParser.Reader.ReadUint | internal/download/file_ops.go:415-428 | a little-endian integer, consuming exactly its width, or an error |
| GgufParser.ReadString | internal/download/file_ops.go:589-602 | value, error and bytes consumed are those of the grammar |
| GgufParser.SkipMetadataValue | internal/download/file_ops.go:628-670 | skips exactly the value, nested arrays included, reporting the bytes consumed; terminates because the rest of the input shrinks |
| GgufParser.ReadMetadataValue | internal/download/file_ops.go:606-625 | the value of an integer, a skip for anything else, with the bytes consumed |
| GgufParser.ReadPair | internal/download/file_ops.go:448-479 | one key and value, and the alignment they set |
| GgufParser.ParseMetadata | internal/download/file_ops.go:442-481 | all pairs, the last alignment, the bytes consumed |
| GgufParser.ParseTensorInfo | internal/download/file_ops.go:489-532 | one tensor entry or its error |
| GgufParser.ParseTensorInfos | internal/download/file_ops.go:485-536 | all tensors in order, the bytes consumed |
| GgufParser.ReadFileHeader | internal/download/file_ops.go:406-438 | magic, version 2 to 4, both counts within their limits |
| GgufParser.ParseFile | internal/download/file_ops.go:373-400 | the whole header; the byte count is the position reached |
| GgufEncoding.SkipEncoded | internal/download/file_ops.go:628-670 | the encoding of any value of the thirteen types, each written on its own, nested arrays included, is skipped exactly |
| GgufEncoding.SkippedIsEncoding | internal/download/file_ops.go:628-670 | whatever is skipped is the encoding of a value of that type |
| GgufEncoding.ReadConsumesWhatSkipDoes | internal/download/file_ops.go:606-670 | reading and skipping succeed together and consume the same |
| GgufEncoding.ValueEncoded | internal/download/file_ops.go:606-625 | a written unsigned integer of 32 or 64 bits is read as the number it is, every other value is skipped |
| GgufEncoding.PairsEncoded | internal/download/file_ops.go:442-481 | encoded pairs parse to the last alignment they set |
| GgufEncoding.TensorsEncoded | internal/download/file_ops.go:485-536 | encoded tensor entries parse to the same tensors |
| GgufEncoding.ParseOfEncoding | internal/download/file_ops.go:373-400 | parsing an encoded header, whatever follows it, returns its tensors, its last alignment (32 without one) and its encoded length |
| GgufEncoding.ParsedIsEncoding | internal/download/file_ops.go:373-400 | whatever is accepted begins with the encoding of a well-formed header |
| GgufEncoding.AcceptsExactlyEncodings | internal/download/file_ops.go:373-400 | the accepted inputs are exactly those |
| GgufEncoding.HeaderRefusedIff | internal/download/file_ops.go:405-438 | which header is refused for what, in the order of the checks |
| GgufEncoding.SmallestFile | internal/download/file_ops.go:405-445 | the 24 bytes of an empty file, written out, are accepted with alignment 32 |
| GgufBounds.ComputeTensorDataSize | internal/download/file_ops.go:568-586 | the wrapped size, 0 for an empty dimension, unknown for an unknown type |
| GgufBounds.ValidateTensorBounds | internal/download/file_ops.go:539-564 | reports the first tensor that ends beyond the file, and none exactly when all end within it |
| GgufBounds.SizeWrap | internal/download/file_ops.go:568-586 | the machine size is the exact size modulo 2^64 while the element count fits |
| GgufBounds.EndExactIff | internal/download/file_ops.go:556 | the machine end is the exact end if and only if that is below 2^63 |
| GgufBounds.VerdictExactIff | internal/download/file_ops.go:548-561 | the verdict on a tensor is right for every file size exactly when its size and end do not overflow |
| GgufBounds.StartIsLeastMultiple | internal/download/file_ops.go:540-546 | the data start is the least multiple of the alignment from the header size on, if and only if that is an int64 |
| GgufBounds.SoundVerdict | internal/download/file_ops.go:539-564 | without overflow the check accepts exactly when every tensor of a known type ends within the file; hence monotone in the size, and a cut below any end is rejected |
| GgufBounds.ValidateHeader | internal/download/file_ops.go:373-403 | the verdict on a file, in exact arithmetic where that is what the code computes |
| GgufBounds.OverflowIsAccepted | internal/download/file_ops.go:568-586 | the 64 bytes of a file with one tensor of 2^66 bytes parse and pass the bounds check |
| GgufBounds.QuantIsLayout | internal/download/file_ops.go:306-335 | every block of the type table holds its weights at their width and its scales |
| Chunks.ComputeChunks | internal/download/chunked.go:212-238 | fills the array with the plan; nothing but the count can wrap |
| Chunks.CountBounds | internal/download/chunked.go:218-221 | the count is the ceiling, or 1 when the division overflows |
| Chunks.PlanTilesIff | internal/download/chunked.go:212-238 | ranges are non-empty, in order, without gap or overlap and cover the file, if and only if the count does not overflow; all but the last are full |
| Chunks.EachByteOnce | internal/download/chunked.go:223-235 | every byte of the file is in exactly one range |
| Chunks.JoinedOfTiles | internal/download/chunked.go:354-387 | the parts of any such split, joined in order, are the file |
| Chunks.PlanAssemblesIff | internal/download/chunked.go:212-238 | joining the computed parts yields the file if and only if the count does not overflow, else its first chunk |
| Chunks.PathsAreDistinct | internal/download/chunked.go:240-242 | part names are pairwise distinct and differ from the file and the assembly file |
| WorkerPool.StepKeepsInv | internal/download/chunked.go:115-160 | every step of workers, closer and collector keeps the pool's invariant |
| WorkerPool.RunKeepsInv | internal/download/chunked.go:115-160 | so does every schedule |
| WorkerPool.SendNeverBlocks | internal/download/chunked.go:122-142 | no send on the error channel blocks, even if nobody receives |
| WorkerPool.OneHolder | internal/download/chunked.go:132-145 | no chunk is held by two workers |
| WorkerPool.AssemblyMeansAllSucceeded | internal/download/chunked.go:155-163 | assembly is reached only if every chunk's download returned nil, each taken once |
| WorkerPool.ReturnMeansFailed | internal/download/chunked.go:155-160 | an error is returned only for a chunk that failed |
| WorkerPool.Progress | internal/download/chunked.go:130-153 | the pool never deadlocks |
| WorkerPool.RunIsBounded | internal/download/chunked.go:130-153 | every schedule is finite, with an explicit bound |
| WorkerPool.ResultIff | internal/download/chunked.go:155-163 | the result depends on the downloads alone, not on the schedule |
| WorkerPool.PoolIsCorrect | internal/download/chunked.go:115-163 | all of it from the initial state, for every number of chunks and workers |
| WorkerPool.NoWorkerAssembles | internal/download/chunked.go:125-128 | with no worker assembly would start with nothing downloaded |
| ChunkRuns.StepKeepsInv | internal/download/chunked.go:132-145 | every piece any worker writes keeps every part a prefix of what it is to become, and every completed part as it is |
| ChunkRuns.RunKeepsInv | internal/download/chunked.go:115-160 | so does every schedule |
| ChunkRuns.WorkersLeaveTheFile | internal/download/chunked.go:141-144 | workers, also those left behind after an error, never touch the file or the assembly file |
| ChunkRuns.PoolDownloadsAll | internal/download/chunked.go:115-163 | under every schedule of pool and disk: when the assembly starts every part is there and accepted and no worker is left; until then the file is as it was |
| StaleWorkers.QuietIsHarmless | internal/download/chunked.go:128-160 | beside workers that have no chunk and none to take, every schedule of a download assembles accepted parts only |
| StaleWorkers.CompleteAll | internal/download/chunked.go:115-163 | from its start a pool can always come to the assembly |
| StaleWorkers.LaterDownloadIff | internal/download/chunked.go:128-160 | a download that starts beside workers left behind assembles accepted parts only, under every schedule, if and only if none of them has a chunk or can take one |
| StaleWorkers.QuietAtAssembly | internal/download/chunked.go:149-163 | a pool that came to its assembly, or whose workers have all exited, leaves no such worker |
| StaleWorkers.LeftBehind | internal/download/chunked.go:155-160 | with two chunks and two workers a failed pool may leave one, and the next download assemble without its part |
| Download.CopyBody | internal/download/chunked.go:295-305 | copies piece by piece; in every state on the way the file is what it was and a part of the body |
| Download.ChunkAnswerIff | internal/download/chunked.go:260-305 | an accepted answer is the chunk if and only if the range was not ignored or is the whole file |
| Download.DownloadChunk | internal/download/chunked.go:245-312 | whatever the server does with ranges: success leaves the part with its range, fresh or resumed, or with the file or a beginning of it if ranges are ignored; touches no other file; fails only after a fault; a part that was written is synced |
| Download.DownloadChunkWithRetry | internal/download/chunked.go:315-350 | gives up only when cancelled or after a fault in each of the five attempts |
| Download.DownloadChunks | internal/download/chunked.go:115-160 | chunks in any order; success means every part is one of those; the file itself is untouched |
| Download.JoinParts | internal/download/chunked.go:354-384 | the temporary file becomes the parts joined in order, and is synced |
| Download.AssembleChunks | internal/download/chunked.go:354-387 | the file becomes the joined and synced parts in one step, or stays as it was |
| Download.AssemblyIff | internal/download/chunked.go:354-387 | the joined parts are the remote file if and only if every part is its range, or the one part of an overflowing plan the whole file; with honoured ranges, if and only if the count does not overflow |
| Download.IgnoredRangesRepeat | internal/download/chunked.go:354-387 | if every range is ignored the joined parts are as many copies as there are chunks |
| Download.CleanupParts | internal/download/chunked.go:390-395 | removes the parts and the temporary file, each that stays costing a failed removal, and nothing else |
| Download.DownloadChunked | internal/download/chunked.go:96-172 | refuses exactly small files and servers without announced ranges; on success the length is returned and the file is the joined parts, with the exact condition for it to be the remote file; otherwise the file is as before; after a success each part still there has cost a failed removal |
| Download.ResumeDownloadFile | internal/huggingface/client.go:381-426 | what is added for each accepted answer, nothing for a 416, and exactly when the file is then the remote one |
| Download.TryResumeDownload | internal/download/manager.go:555-583 | returns the size of the file, which is the remote one if and only if it was a prefix and the range was not ignored; a non-empty partial file is given up only after a fault |
| Download.DownloadFile | internal/download/manager.go:484-551 | for every branch and server: which requests are made in which order, each way being left only after a fault of its own, the last with a request for the whole file into the emptied one unless it could not be emptied; what each of the four ways leaves, what size it reports, and exactly when that is the remote file; with honoured ranges and one content, every state on the way keeps file and parts prefixes and success returns the remote length; all ways but Xet leave a synced file |
| Download.ResumeOrFresh | internal/download/manager.go:523-551 | the rest of a file that is there is asked for first, and the whole file unless that succeeds |
| Download.ResumeCompletesIff | internal/huggingface/client.go:397-425 | appending an accepted answer completes a file if and only if that was a prefix and the range was not ignored |
| Progress.ProgressReader.Read | internal/download/chunked.go:420-432 | pending bytes are reported in one call when the interval is over or the read failed, and kept otherwise |
| Progress.ReportsAreBytesRead | internal/download/chunked.go:410-432 | over every sequence of reads, reported and pending bytes together are the bytes read |
| Progress.AllReportedIff | internal/download/chunked.go:420-432 | everything is reported if and only if the last read that brought bytes came with an error or after the interval |
| Progress.ReportsAreSpaced | internal/download/chunked.go:420-432 | a later report is at least an interval later, or comes with an error |
| DownloadStatus.Status.SetPhase | internal/download/status.go:148-152 | sets the phase, nothing else |
| DownloadStatus.Status.SetProgress | internal/download/status.go:135-145 | sets both byte counts; the percentage follows unless the total is 0 |
| DownloadStatus.Status.SetError | internal/download/status.go:155-163 | failed, with the message, and over |
| DownloadStatus.Status.SetComplete | internal/download/status.go:166-174 | complete, at 100 percent, and over |
| DownloadStatus.Status.UpdateFileProgress | internal/download/status.go:195-215 | replaces the entry of the path or appends one |
| DownloadStatus.TerminalIff | internal/download/status.go:217-222 | the terminal phases are exactly those from which a download makes no further move |
| DownloadStatus.Status.IsComplete | internal/download/status.go:218-222 | true exactly when no further move of the phase is possible |
| DownloadStatus.LookupOfUpdated | internal/download/status.go:195-215 | an update changes the entry of its own path and no other |
| DownloadStatus.PercentRises | internal/download/manager.go:348 | more done and less estimated to remain is no smaller a percentage, within 0 and 100 |
| Manager.FetchFile | internal/download/manager.go:323 | one file, leaving every other file of the list as it is |
| Manager.NextFile | internal/download/manager.go:254-347 | one turn of the file loop, with its cancellation check and its entry; success means not cancelled and a directory |
| Manager.DownloadFiles | internal/download/manager.go:254-349 | all files with their sizes and entries, and a percentage that never falls; or one error with a cause |
| Manager.NextEstimate | internal/download/manager.go:348 | the estimated percentage after the next file is no lower |
| Manager.VerifyChecksums | internal/download/manager.go:374-381 | succeeds only if every listed checksum matches, fails only for a mismatch or a fault |
| Manager.WriteManifest | internal/download/manager.go:386-391 | the manifest file is written atomically and no listed file is touched |
| Manager.FetchAndVerify | internal/download/manager.go:240-396 | download, checksums, manifest file, completion, in that order |
| Manager.PerformDownload | internal/download/manager.go:177-397 | phases are Pending, Downloading, Complete or Failed along the allowed moves; every exit is terminal; it fails only for a cause, and completes only if nothing but a fault could have failed it; Complete means the manifest on disk lists exactly the resolved files with their sizes and every one is on disk and reported |
| Manager.CompletedVerifiesIff | internal/download/file_ops.go:204-235 | a completed directory verifies if and only if the published GGUF headers are valid |
| Manager.ApartIff | internal/download/chunked.go:240-242 | two files collide only if one is named as a part or the temporary file of the other |
| ManagerRuns.StepKeepsInv | internal/download/manager.go:147-195 | the semaphore counts exactly the goroutines past it, never more than its size |
| ManagerRuns.StepKeepsLiveTrackedIff | internal/download/manager.go:618-622 | live downloads stay tracked exactly if no status of a live one is removed |
| ManagerRuns.RunKeepsInv | internal/download/manager.go:147-195 | both over whole runs |
| ManagerRuns.ManagerIsSafe | internal/download/manager.go:147-195 | from the start: at most `maxConcurrent` past the semaphore, at most one live download per model |
| ManagerRuns.MovesIff | internal/download/manager.go:177-397 | a running goroutine can take its status through phases if and only if they continue its history along the allowed moves |
| ManagerRuns.DownloadIsARun | internal/download/manager.go:177-397 | the phases that PerformDownload is proved to append are such a run, ending in the exit |
| ManagerRuns.Progress | internal/download/manager.go:182-186 | as long as a goroutine has not exited, one can go on |
| ManagerRuns.StepsAreWork | internal/download/manager.go:177-397 | and only four steps a download |
| ManagerRuns.CarelessRemoval | internal/download/manager.go:618-622 | removing the status of a live download lets a second one start |
| Markers.AtomicWrite | internal/download/file_ops.go:60-111 | in every state on the way the target is untouched or complete; failure leaves it untouched; success has synced it |
| Markers.WriteReadyMarker | internal/download/file_ops.go:115-118 | the marker appears in one step |
| Markers.RemoveReadyMarker | internal/download/file_ops.go:130-137 | the marker is gone, also if there was none; or a fault and no change |
| Markers.CheckReadyMarker | internal/download/file_ops.go:122-126 | true exactly if the marker is there and its lookup does not fail |
| Markers.VerifyFile | internal/download/file_ops.go:211-228 | exists, has its size, and a GGUF file a valid header |
| Markers.GgufIff | internal/download/file_ops.go:221-222 | the extension of a path is `.gguf` if and only if the path ends in it |
| Markers.VerifyFiles | internal/download/file_ops.go:204-235 | succeeds only if every listed file verifies, fails only if one does not or for a fault |
| Markers.RemoveAll | internal/download/file_ops.go:713-715 | only files under the directory disappear, in every state on the way |
| Markers.CheckAndVerifyReadyMarker | internal/download/file_ops.go:701-721 | a positive answer means every file verified and nothing changed; that there is no marker is the truth or a failed lookup; after a negative answer with a marker that goes before anything else, whatever stops the process, and without a fault the directory is empty |
| ReadyMarker.StepKeepsTrustedIff | internal/controller/inferencemodel_controller.go:312-405 | every step of reconciler, goroutine and surroundings, crashes included, keeps deletion and download away from a marker, except exactly two: a failed removal of the marker, and a download begun after a failed lookup of an existing one |
| ReadyMarker.StepIsSafeIff | internal/controller/inferencemodel_controller.go:312-405 | a step leaves a marker not to be trusted if and only if beside it the step deletes the manifest or a file it vouches for, or starts a download |
| ReadyMarker.RunIsSafeIff | internal/controller/inferencemodel_controller.go:142-405 | all states of a run have a marker to be trusted if and only if no step of the run does one of these |
| ReadyMarker.RunsAreSafe | internal/controller/inferencemodel_controller.go:142-405 | in every run in which lookups before a download and removals of the marker succeed, in every state on the way a marker implies no live download and a manifest of exactly what the last completed download wrote; files not touched from outside have those sizes |
| ReadyMarker.ManifestListsFinished | internal/download/manager.go:323-396 | in every safe run a download that completes leaves a manifest of exactly the files finished since it started, each with the size it had on disk at that step |
| ReadyMarker.DownloadSucceeds | internal/download/manager.go:254-396 | a download that was started can leave any files with a manifest of just these, whatever was there before |
| ReadyMarker.TaskMovesIff | internal/download/manager.go:177-397 | the goroutine moves its status exactly along the edges of the phases, to completion with and to failure without its manifest |
| ReadyMarker.ReconcileSucceeds | internal/controller/inferencemodel_controller.go:142-405 | what an undisturbed reconcile comes to from every idle state: a retry cleared, an intact model accepted, a corrupted one deleted, a download started, reported or recorded with its marker |
| ReadyMarker.AnnotatedIsRetried | internal/controller/inferencemodel_controller.go:142-175 | an annotation on a complete or failed model takes its marker and makes it pending |
| ReadyMarker.FailedCallEnds | internal/controller/inferencemodel_controller.go:316-405 | a failed API call or marker write ends the reconcile and leaves everything as it was |
| ReadyMarker.CrashIsRecovered | internal/controller/inferencemodel_controller.go:312-354 | a crash loses no file and no marker, and the next reconcile starts the download again unless there is a marker or a retry is due |
| ReadyMarker.EmptyIsSafe | internal/controller/inferencemodel_controller.go:312-324 | an empty directory is a safe start |
| ReadyMarker.DeletionIsUnmarked | internal/download/file_ops.go:708-715 | while no marker is missed, files are deleted only when it is already gone |
| ReadyMarker.StartsAlone | internal/controller/inferencemodel_controller.go:341-354 | a download starts, and a status is discarded, only when none of the model is live; and a download, while no marker is missed, only where there is none |
| ReadyMarker.VerifiedIsComplete | internal/controller/inferencemodel_controller.go:317-324 | verification reports completion only with every listed file at its size |
| ReadyMarker.IgnoredFailure | internal/download/file_ops.go:710 | after a failed removal a marker stands beside a live download |
| ReadyMarker.OverlookedMarker | internal/download/file_ops.go:122-126 | after a failed lookup of an intact marker it stands beside a live download |
| ByteGrouping.IndexBijection | internal/xet/decompress.go:122-132 | the index map is a bijection, with both inverses |
| ByteGrouping.GroupedAt | internal/xet/decompress.go:101-140 | byte `j` of word `i` lies at `i` in the `j`-th group, in both directions |
| ByteGrouping.UngroupedOfGrouped | internal/xet/decompress.go:101-140 | undoing a grouping returns the data |
| ByteGrouping.GroupedOfUngrouped | internal/xet/decompress.go:101-140 | and the other way round |
| ByteGrouping.UndoByteGrouping4 | internal/xet/decompress.go:101-140 | the loops compute the inverse permutation, cut to the expected size, or the partial form |
| ByteGrouping.UndoByteGrouping4Partial | internal/xet/decompress.go:143-182 | the loops compute complete words and the tail the code reads |
| ByteGrouping.PadGroupUndo | internal/xet/decompress.go:101-140 | data of any length, padded, grouped and undone with its own size, is returned |
| ByteGrouping.PartialUndoIff | internal/xet/decompress.go:171-179 | the partial form returns words and tail exactly when the bytes it reads happen to be the tail |
| Xorb.Serialize | internal/xet/xorb.go:75-93 | the 8-byte layout |
| Xorb.ParseOfSerializedIff | internal/xet/xorb.go:55-93 | a written header reads back if and only if both sizes fit in three bytes |
| Xorb.SerializedOfParse | internal/xet/xorb.go:55-93 | a read header writes back the same bytes |
| Xorb.XorbIterator.Next | internal/xet/xorb.go:136-157 | the next item, an overrun, or the end; the offset moves only past an item |
| Xorb.XorbIterator.HasNext | internal/xet/xorb.go:160-162 | exactly when the next item is not the end |
| Xorb.ChunksOfEncoding | internal/xet/xorb.go:75-162 | iterating over written chunks and fewer than 8 further bytes returns them and ends after them |
| Xorb.IteratedIsEncoding | internal/xet/xorb.go:136-162 | whatever is iterated without error is such a container |
| Xorb.Decompress | internal/xet/decompress.go:39-61 | dispatch on the compression type |
| Xorb.RefusedIff | internal/xet/decompress.go:39-61 | a chunk is refused exactly for an unknown type or a payload that is no frame |
| Xorb.WrittenDecompresses | internal/xet/decompress.go:39-61 | a chunk written plainly, as a frame, or grouped and as a frame decompresses to its data |
| Xorb.GroupedChunkDecompresses | internal/xet/decompress.go:50-56 | a padded, grouped and compressed chunk decompresses to its data |
| Xorb.StreamIsChunkAligned | internal/xet/download.go:234-293 | one pass over a range agrees with its chunks taken together; on an error it stops after the chunks before it |
| Xorb.ReconIsChunkAligned | internal/xet/download.go:163-219 | the bytes of a whole reconstruction are the chunks of all terms, or on an error those of the earlier terms and the chunks of the failing one before the error |
| Xorb.WrittenIsReconstructed | internal/xet/download.go:163-196 | data written as chunks of xorbs by any of the three methods is returned by the reconstruction of its terms |
| Xorb.TermErrorIff | internal/xet/download.go:172-237 | which term fails for want of fetch info, of data, or of a range |
| Xorb.FetchedOnlyIff | internal/xet/download.go:234-237 | the result does not depend on memory behind the fetched bytes if and only if the range does not end beyond them |
| Xorb.ExtractChunks | internal/xet/download.go:234-261 | all bytes of a range, which may reach into the spare capacity, or an error |
| Xorb.ExtractChunksToWriter | internal/xet/download.go:264-293 | writes exactly those bytes, or the chunks before the error |
| Xorb.Reconstruct | internal/xet/download.go:163-196 | the terms in order, or the first error |
| Xorb.ReconstructToWriter | internal/xet/download.go:199-219 | writes exactly what the batch form returns; on an error of the data the chunks before it, on a failed write an initial part |
| HuggingFaceUrl.ParsedIsSlashFree | internal/xet/file_id.go:53-147 | what is accepted has no slash in namespace, repository or branch |
| HuggingFaceUrl.WebFormIff | internal/xet/file_id.go:47-105 | every documented web form parses to what it names, except exactly a namespace `hf.co` after `huggingface.co/` |
| HuggingFaceUrl.ParseOfStringIff | internal/xet/file_id.go:177-180 | printing then parsing is the identity if and only if the parts are slash-free and the namespace is not `hf.co` |
| HuggingFaceUrl.ParsePrintParseIff | internal/xet/file_id.go:53-147 | parse, print, parse equals parse if and only if the namespace is not `hf.co`, for both protocols |
| HuggingFaceUrl.StringIsInjective | internal/xet/file_id.go:177-180 | such values print differently if they differ |
| HuggingFaceUrl.BareFormIff | internal/xet/file_id.go:91-97 | the form without a fixed word works unless the branch is one; then the branch is the first directory of the path |
| HuggingFaceUrl.HFFormIff | internal/xet/file_id.go:108-147 | `hf://` means branch main and the whole path, or, of a path that begins with `main/` or `master/`, that branch and the rest of the path |
| HuggingFaceUrl.HFRepoForm | internal/xet/file_id.go:108-121 | without a path it names the main branch and no file, without a repository it is refused |
| HuggingFaceUrl.AcceptedIff | internal/xet/file_id.go:53-121 | accepted are exactly URLs with three slashes after the host, or one after `hf://` |

## Left out

- ClusterRuns.RunsAreSafe: assumes atomic steps (no creation comes between the check and the allocation of
  another one, nor between the pod lookup and the release of a reconcile), accurate failed lookups,
  selectors with at most one entry, fixed declared memory that parses, no deletion of a model's
  resource and no restart; CommitIff and the lemmas ending in CoverageIff show what each of these is
  for. A pod is gone with the call that deletes it, without the graceful period.
- Registry.DeploymentRegistry.Get: returns a copy of the entry, where the source hands out the pointer.
- Proxy.Server.WaitForPodReady: the waiting is one step, its polling reads change nothing.
- Proxy.Server.CreateAndAllocate: the single-flight mutex is modelled by itself, in `SingleFlight`. An API
  call that reports failure is taken to have had no effect, and the memory string to parse; what
  happens otherwise is in `RequestCounts`.
- Download.DownloadChunks: downloads the parts one after the other in any order; that any interleaving of
  the workers ends with the same accepted parts, and that workers left behind by a failed chunk touch
  nothing but parts, is ChunkRuns.PoolDownloadsAll and ChunkRuns.WorkersLeaveTheFile. It runs by itself:
  what workers left behind by an earlier download of the same file do to it is StaleWorkers.LaterDownloadIff.
- Manager.PerformDownload: requires that no listed file is named as a part or the temporary file of
  another (Manager.ApartIff) or as the manifest. JSON and SHA-256 are functions, files are listed from
  the main branch, no other download of the model runs at the same time (`ManagerRuns`), and no worker
  that an earlier one left behind still has a chunk (`StaleWorkers`).
- ReadyMarker.RunsAreSafe: one reconcile at a time, sizes only (the bytes are in `Manager`),
  repository files not named as marker or manifest, and one namespace: models of the same name in two
  namespaces share directory and download key (`getCacheDir`, internal/controller/inferencemodel_controller.go:439-441),
  so that the marker of one stands for the files of the other.
- ReadyMarker.DownloadSucceeds: one run that succeeds, with sizes only; whether and when downloads succeed
  is in `Download` and `Manager`.
- Download.DownloadFile: nothing is said about syncing on the way of Xet.
- Xorb.WrittenIsReconstructed: terms name whole chunks of a xorb that is fetched from its beginning.
- The legacy path without a registry: its eviction is unreachable.
- Overflow of the int64 memory totals, usage tracking, utilization and GetBlockingModels.
- HTTP forwarding, Kubernetes objects, metrics, events, log texts and the web UI.
- Retry delays, stall timers, the counter that adds up the progress of all chunks (a retried chunk counts
  twice, a resumed one not at all), and the periodic progress log.
- LZ4 is a parameter; glob matching and the quantity parser itself are left out.
- MultiFileDownloader, the cache manager, and the resolver of file patterns.
