# Verification of the AI infrastructure platform

A model of the platform's core algorithms, and proofs about all inputs, runs and interleavings of it.

| file | models |
|---|---|
| `GemmModel.dfy`, `GemmKernels.dfy`, `GemmInterleaving.dfy` | the naive and the tiled matrix-multiply kernels: abstract arithmetic, the kernels as loops over arrays, and the tiled one as interleaved threads with barriers |
| `Crc32.dfy`, `WalFormat.dfy`, `WalNames.dfy`, `WalLog.dfy`, `WalCrashes.dfy`, `WalWriter.dfy`, `WalReplay.dfy` | the write-ahead log: the checksum, record framing, segment names, the writer over a directory of files, histories with crashes, and the replay loops |
| `Jobs.dfy`, `PriorityQueue.dfy`, `Matcher.dfy`, `Store.dfy`, `Dispatcher.dfy`, `GpuLedger.dfy`, `PlacementPolicy.dfy`, `ExactGrants.dfy`, `BrokenPolicies.dfy` | the GPU-aware scheduler and its in-memory store, run alone and with overlapping dispatchers, and the rules callers must keep to |
| `Lifecycle.dfy`, `Services.dfy` | jobs and executions as a transition system, and the services, each call of which is shown to be a legal history of it |
| `Sharding.dfy`, `Pipeline.dfy` | the sharded telemetry pipeline with its drain and shutdown |
| `TokenBucket.dfy`, `RateLimiters.dfy` | the token buckets and the per-model registry |
| `Sampling.dfy`, `Sampler.dfy` | head sampling as a pure filter, and the nested in-place compaction that refines it |
| `Summary.dfy`, `BenchmarkSummary.dfy` | rounding, interpolated percentiles and benchmark summaries |
| `Router.dfy` | backend selection, the weighted shuffle and failover |
| `Values.dfy` | byte strings and optional values, shared by the others |

Code that changes state is a class or a method proved against a function of its input or old state; what the
platform promises is proved about those functions, and for concurrent code about transition systems whose
schedules are arbitrary. Mutex-protected methods are atomic steps. Clocks, random draws, executors and
backends are inputs.

Where code and expectation part, the model says where exactly:
`GemmIndices.LaunchFitsExactly` (the index arithmetic can overflow although all three matrices are small enough),
`WalNames.NamesSortExactly` (string order fails from segment 10^10 on),
`GemmModel.Problem.TiledProductExactly` (the tiled kernel's padding shows unless 0 * 0 changes no sum),
`ExactGrants.OneGrantExactly`, `PlacementPolicy.RunsBalanceExactly` and `BrokenPolicies` (one grant a job, and the
GPU balance, need rules no code enforces) and `Services.NothingIsReturned` (the services never give GPUs back).

`dafny verify dfyconfig.toml` checks the whole project.

## Model

| member | source | states |
|---|---|---|
| `GemmInterleaving.EveryScheduleComputesProduct` | cuda-gemm-bench/tiled_gemm.cu:32-80 | for all M, N, K, every arithmetic and every interleaving of all threads of all blocks, no store leaves C, and once all threads are done each cell was stored exactly once and C is the product in the naive kernel's summation order followed by the padding's 0 * 0 terms; if and only if those terms show in no stored cell, as over lawful arithmetic they never do, cell (r, c) is the narrowed result of accumulating A(r, k) * B(k, c) for k from 0 to K - 1 |
| `GemmInterleaving.EveryScheduleMatchesNaive` | cuda-gemm-bench/tiled_gemm.cu:32-80 | every complete schedule of the tiled kernel leaves in C exactly what a naive launch leaves, cell for cell, if and only if the padding is invisible; over lawful arithmetic it always does |
| `GemmModel.Problem.ProductIsUnique` | cuda-gemm-bench/naive_gemm.cu:34-41 | the predicate both launches ensure fixes every cell of C |
| `GemmInterleaving.EveryScheduleTerminates` | cuda-gemm-bench/tiled_gemm.cu:46-79 | every schedule is finite, all complete schedules have the same length, and one that cannot be extended is complete: no thread is stuck at a barrier |
| `GemmInterleaving.NoDataRace` | cuda-gemm-bench/tiled_gemm.cu:44-74 | in every reachable state the next steps of two threads never touch a common shared or global location that either writes |
| `GemmInterleaving.StepKeepsInv` | cuda-gemm-bench/tiled_gemm.cu:46-79 | one step of any thread keeps lockstep between barriers, the loaded tiles, the partial sums and the stored cells correct |
| `GemmInterleaving.StepKeepsLockstep` | cuda-gemm-bench/tiled_gemm.cu:64-73 | no thread passes a barrier that a thread of its block has not reached, so all pass equally many |
| `GemmInterleaving.NoDeadlock` | cuda-gemm-bench/tiled_gemm.cu:64-73 | as long as some thread is unfinished, some thread can step |
| `GemmInterleaving.ScheduleIsBounded` | cuda-gemm-bench/tiled_gemm.cu:46-79 | the work left bounds the length of every schedule and is used up one unit a step |
| `GemmInterleaving.LaunchHasOneThreadPerCell` | cuda-gemm-bench/tiled_gemm.cu:38-39 | distinct launched threads that own a cell own distinct cells of C |
| `GemmInterleaving.OwnerIsLaunched` | cuda-gemm-bench/tiled_gemm.cu:129-131 | the rounded-up grid launches an owner for every cell of C |
| `GemmInterleaving.StoresStayInBounds` | cuda-gemm-bench/tiled_gemm.cu:76-79 | stores keep C a buffer of M*N cells |
| `GemmKernels.NaiveDot` | cuda-gemm-bench/naive_gemm.cu:35-39 | the accumulator loop multiplies row `row` of A by column `col` of B, added left to right |
| `GemmKernels.NaiveThread` | cuda-gemm-bench/naive_gemm.cu:31-41 | a thread writes its own cell if it lies in C and no other cell |
| `GemmKernels.NaiveLaunch` | cuda-gemm-bench/naive_gemm.cu:28-42 | threads run in any covering order leave in cell (r, c) the narrowed result of accumulating A(r, k) * B(k, c) in the order of k |
| `GemmModel.Problem.ProductCell` | cuda-gemm-bench/naive_gemm.cu:34-41 | cell r*N + c of the product is narrowed from partial sums that start at zero and add A[r*K + k] * B[k*N + c] for k = 0, 1, ..., K - 1: all three buffers are row-major |
| `GemmModel.LaunchOperands` | cuda-gemm-bench/tiled_gemm.cu:38-62 | what a thread of the tiled launch reads at (r, k) and (k, c), zero outside the matrices, the index it writes, and the sizes of loop and grid |
| `GemmKernels.LoadTiles` | cuda-gemm-bench/tiled_gemm.cu:47-62 | whatever the shared tiles held, after the loads they hold the zero-padded tiles of A and B |
| `GemmKernels.AccumulateTiles` | cuda-gemm-bench/tiled_gemm.cu:67-70 | the accumulation between the barriers advances every sum of the block by one tile of terms |
| `GemmKernels.StoreThread` | cuda-gemm-bench/tiled_gemm.cu:76-79 | the guarded store of one thread finishes its own cell and leaves the cells of other blocks alone |
| `GemmKernels.StoreBlock` | cuda-gemm-bench/tiled_gemm.cu:76-79 | a block's stores write exactly the cells of C inside the block |
| `GemmKernels.TiledBlock` | cuda-gemm-bench/tiled_gemm.cu:32-80 | from arbitrary shared memory a block leaves the tiled inner products in its cells and every other cell as it was, over any arithmetic |
| `GemmKernels.TiledLaunch` | cuda-gemm-bench/tiled_gemm.cu:32-80 | blocks run in any covering order leave the tiled product in C, over any arithmetic; it is what a naive launch leaves if and only if the padding is invisible, and always over lawful arithmetic |
| `GemmModel.Problem.TiledProductExactly` | cuda-gemm-bench/tiled_gemm.cu:52-79 | the tiled kernel's buffer is the product if and only if accumulating the padding changes no stored cell |
| `GemmModel.TileLoopComputesTiledDot` | cuda-gemm-bench/tiled_gemm.cu:44-74 | over any arithmetic the padded sum over whole tiles is the tiled inner product: no term of the first K is lost, repeated or reordered |
| `GemmModel.PaddedSumAddsZeros` | cuda-gemm-bench/tiled_gemm.cu:52-62 | past K every term of the tile loop is 0 * 0, over any arithmetic |
| `GemmModel.LawfulPaddingIsInvisible` | cuda-gemm-bench/tiled_gemm.cu:68-70 | an arithmetic in which 0 * 0 changes no sum of widened stored values, fused or not, never shows the padding |
| `GemmModel.TileLoopComputesDot` | cuda-gemm-bench/tiled_gemm.cu:44-74 | over any lawful arithmetic the padded sum over whole tiles equals the inner product of length K, without reordering |
| `GemmModel.PaddedSumPastK` | cuda-gemm-bench/tiled_gemm.cu:52-62 | over lawful arithmetic the terms past K change no sum |
| `GemmModel.SeparateRoundingIsLawful` | cuda-gemm-bench/tiled_gemm.cu:68-70 | 0*0 = 0 and x+0 = x are all that an unfused multiply-add needs |
| `GemmIndices.LaunchFitsExactly` | cuda-gemm-bench/tiled_gemm.cu:38-39 | every int expression of the host's sizes, the grid and all launched threads fits 31 bits if and only if the sizes pass a check a caller can make |
| `GemmIndices.ProductsAloneDoNotSuffice` | cuda-gemm-bench/tiled_gemm.cu:44-49 | M*K, K*N and M*N within 31 bits are not enough: K + 32 can still overflow |
| `Crc32.BurstChangesChecksum` | internal/otelgateway/wal/wal.go:97-100 | any change confined to 32 consecutive bits changes the CRC-32 of section 8 of RFC 1952 |
| `Crc32.FourByteChangeIsDetected` | internal/otelgateway/wal/wal.go:250-253 | any change confined to four consecutive bytes, in particular of one byte, changes the checksum |
| `Crc32.FeedIsFeedBits` | internal/otelgateway/wal/wal.go:100 | the byte-at-a-time checksum is the bitwise division by the reflected polynomial |
| `Crc32.CheckValue` | internal/otelgateway/wal/wal.go:100 | the checksum of the digits 1 to 9 is the published check value of this CRC |
| `WalFormat.LittleEndianRoundTrip` | internal/otelgateway/wal/wal.go:99 | a length below 2^32 is read back from its four bytes, of which the first is the lowest |
| `WalFormat.RecordLayout` | internal/otelgateway/wal/wal.go:97-107 | a record adds to a file the four bytes of the payload's length, lowest first, the four bytes of its CRC, lowest first, and the payload, for payloads of any length |
| `WalFormat.ChecksumRoundTrip` | internal/otelgateway/wal/wal.go:100 | a checksum is read back from its four bytes |
| `WalFormat.WriteThenReplay` | internal/otelgateway/wal/wal.go:97-107 | replaying the bytes of any list of records delivers exactly those records |
| `WalFormat.PayloadSurvivesExactly` | internal/otelgateway/wal/wal.go:99 | a payload survives write and replay if and only if it is shorter than 2^32 bytes |
| `WalFormat.RefusalStops` | internal/otelgateway/wal/wal.go:255-258 | the first payload the callback refuses is the last one of its segment that is delivered, and the replay of the segment is an error |
| `WalFormat.CallsAreShort` | internal/otelgateway/wal/wal.go:242-248 | no delivered payload, from any bytes at all, reaches 2^32 bytes |
| `WalFormat.CutSegmentDeliversPrefix` | internal/otelgateway/wal/wal.go:234-260 | cutting a segment at any byte delivers exactly the records wholly before the cut, and says how replay ends |
| `WalFormat.TornRecord` | internal/otelgateway/wal/wal.go:235-248 | a strict prefix of a record delivers nothing and is an error only if its header is complete |
| `WalFormat.VisibleChangeStopsReplay` | internal/otelgateway/wal/wal.go:250-253 | an overwritten payload whose checksum differs stops replay right before it |
| `WalFormat.FourByteCorruptionIsDetected` | internal/otelgateway/wal/wal.go:242-258 | changing up to four consecutive bytes of a payload delivers exactly the records before it |
| `WalNames.NameIsInjective` | internal/otelgateway/wal/wal.go:132 | different numbers give different names |
| `WalNames.ParseInvertsName` | internal/otelgateway/wal/wal.go:172-178 | the number read back from a written segment name is the number written into it, at any width |
| `WalNames.WrittenNames` | internal/otelgateway/wal/wal.go:132 | segments 1, 2 and 10 are named seg-0000000001.wal, seg-0000000002.wal and seg-0000000010.wal |
| `WalNames.NamesSortNumerically` | internal/otelgateway/wal/wal.go:197-204 | below 10^10 the names sort as strings in the order of their numbers |
| `WalNames.ElevenDigitsSortFirst` | internal/otelgateway/wal/wal.go:132-204 | at 10^10 string order and numeric order part |
| `WalNames.NamesSortExactly` | internal/otelgateway/wal/wal.go:132-204 | all names up to a bound sort numerically if and only if the bound is below 10^10 |
| `WalLog.ReplayInvertsHistory` | internal/otelgateway/wal/wal.go:59-261 | after any history of restarts, rotations and appends, replay delivers every appended payload once, in append order |
| `WalLog.HistoryKeepsEveryPayload` | internal/otelgateway/wal/wal.go:59-142 | over every history the segments hold all payloads in order, and each segment keeps to the size limit or holds one record |
| `WalLog.AppendedAddsOneRecord` | internal/otelgateway/wal/wal.go:86-112 | an append adds its payload at the end of the log and nothing else, rotated or not |
| `WalLog.AppendedStaysWithinLimit` | internal/otelgateway/wal/wal.go:90-95 | the size limit, with its one-record exception, survives an append |
| `WalLog.ListingIsNumeric` | internal/otelgateway/wal/wal.go:197-204 | the sorted listing visits the segments in the order they were written |
| `WalLog.DamageIsContained` | internal/otelgateway/wal/wal.go:206-215 | a damaged segment loses only records of its own |
| `WalLog.CrashDeliversPrefix` | internal/otelgateway/wal/wal.go:206-261 | a crash that cuts the last segment makes replay deliver a prefix of the log: the records wholly before the cut |
| `WalCrashes.CrashesLoseOnlyTails` | internal/otelgateway/wal/wal.go:59-261 | over every history of restarts, rotations, appends and crashes, replay of the segments in numeric order delivers of each the records wholly in what is left of it, in order; a crash tears at most one segment and everything else arrives |
| `WalCrashes.ReplayAfterCrashes` | internal/otelgateway/wal/wal.go:184-261 | the same for the directory itself, listed and sorted by name, after every history with fewer than 10^10 segments, the bound `WalNames.NamesSortExactly` shows necessary |
| `WalCrashes.DiskReplays` | internal/otelgateway/wal/wal.go:206-261 | replaying any directory of whole and torn segments delivers exactly their wholly kept records; with no torn segment, all records |
| `WalCrashes.StepTearsOne` | internal/otelgateway/wal/wal.go:86-142 | only a crash tears a segment, and only the newest |
| `WalCrashes.FileDeliversKept` | internal/otelgateway/wal/wal.go:224-261 | a torn or whole segment delivers exactly its records that lie wholly in its bytes |
| `WalLog.CorruptionCostsOnlyItsTail` | internal/otelgateway/wal/wal.go:206-261 | overwriting up to four consecutive payload bytes costs that record and the later ones of its segment only |
| `WalWriter.Directory.FindMaxSegment` | internal/otelgateway/wal/wal.go:161-182 | in any directory the scan finds the highest number a .wal name carries, 0 when there is none; among the writer's own segments that is their count |
| `WalWriter.NextSegmentIsNew` | internal/otelgateway/wal/wal.go:69-74 | whatever .wal files exist, the number after the highest one names no existing file |
| `WalWriter.Writer.constructor` | internal/otelgateway/wal/wal.go:59-83 | a restart, also after crashes that tore segments, opens a new segment under a name that was not in use and touches no other file; the directory takes the step the crash theorem calls an opening |
| `WalWriter.Writer.Rotate` | internal/otelgateway/wal/wal.go:125-142 | a rotation creates the next segment, empty, under an unused name, as an opening of the specified disk |
| `WalWriter.Writer.Write` | internal/otelgateway/wal/wal.go:97-109 | the current file grows by exactly the record and its tracked size stays its true length; torn older segments stay as they are |
| `WalWriter.Writer.Append` | internal/otelgateway/wal/wal.go:86-112 | the directory takes exactly the append step of the specified disk, rotating if and only if the record would exceed the size limit, and only the current or a new file changes |
| `WalWriter.Directory.WriteRecord` | internal/otelgateway/wal/wal.go:97-109 | the two writes of header and payload put exactly one record at the end of the newest segment: byte i of its length field is the length divided by 256^i, modulo 256 |
| `WalWriter.CrashKeepsDirectory` | internal/otelgateway/wal/wal.go:86-142 | a crash that cuts the newest file leaves a directory a restarting writer accepts |
| `WalReplay.ReadFull` | internal/otelgateway/wal/wal.go:235-248 | a full read takes the next bytes; a short one takes the rest and tells an empty rest from a partial one |
| `WalReplay.ReadRecord` | internal/otelgateway/wal/wal.go:235-253 | one record is read, or the reason why not, from the bytes at the file position |
| `WalReplay.FirstRecordLayout` | internal/otelgateway/wal/wal.go:235-253 | a delivered record is the payload whose length the first four bytes give, lowest first |
| `WalReplay.ReplaySegment` | internal/otelgateway/wal/wal.go:224-261 | the read loop delivers what the byte-level specification says, counts it, and stops for the same reason |
| `WalReplay.SortNames` | internal/otelgateway/wal/wal.go:204 | the listing is sorted and keeps its names |
| `WalReplay.Replay` | internal/otelgateway/wal/wal.go:186-222 | the segments are replayed in the order of their names, errors or not; a directory of writers and crashes delivers exactly the wholly kept records, and every record in order when no segment is torn |
| `PriorityQueue.RootIsFirst` | internal/scheduler/priority_queue.go:13-18 | no job of a heap is ahead of its root in priority, then age |
| `PriorityQueue.Queue.Down` | internal/scheduler/priority_queue.go:20-22 | sifting permutes the items and restores the heap below its start |
| `PriorityQueue.Queue.constructor` | internal/scheduler/priority_queue.go:36-40 | heapify permutes the items into a heap |
| `PriorityQueue.Queue.Pop` | internal/scheduler/priority_queue.go:28-34 | every other queued job has a lower priority, or the same one and is not older; the rest stay and remain a heap |
| `Jobs.CanFitGpuMemory` | internal/model/node.go:63-74 | true if and only if the number of devices with the memory free reaches the count, or, without a memory request, enough GPUs are free |
| `Jobs.FitsInFull` | internal/scheduler/resource_matcher.go:40-48 | a node fits if and only if it is online, has enough GPUs free, and enough of its devices have the memory asked for |
| `Matcher.MatchNode` | internal/scheduler/resource_matcher.go:31-71 | fails exactly when no listed node fits; best fit leaves the fewest GPUs free, first fit takes the first fitting node |
| `Dispatcher.Dispatch.MarkScheduled` | internal/scheduler/dispatcher.go:114-135 | the stored job becomes scheduled with its node, and nothing else changes |
| `Dispatcher.Dispatch.PlaceJob` | internal/scheduler/dispatcher.go:82-112 | run alone, a schedulable job takes one greedy turn: it is refused exactly when no node fits, and otherwise takes its GPUs from a best-fitting node |
| `Dispatcher.Dispatch.SchedulePending` | internal/scheduler/dispatcher.go:49-70 | run alone, a call is a greedy pass over the schedulable jobs until the limit is reached or none is left; it places higher priorities first and older jobs first among equals, and no job left behind comes before a placed one |
| `Dispatcher.PlacedBeforeLeft` | internal/scheduler/dispatcher.go:54-69 | placed jobs are in order of falling priority, older ones first among equals, and every job left behind has a lower priority, or the same one and is not older |
| `Dispatcher.PlacedPositions` | internal/scheduler/dispatcher.go:59-69 | the jobs returned are those of the turns that were not skipped, all of them, in order |
| `Dispatcher.Dispatch.ReleaseJobResources` | internal/scheduler/dispatcher.go:138-144 | a release gives the job's GPUs back to its node, does nothing without a node or GPUs, and fails for an unknown node |
| `Dispatcher.PassOnlyShrinks` | internal/scheduler/dispatcher.go:58-68 | a pass changes nothing about nodes but their free counts, which only shrink |
| `Dispatcher.SkippedNeverFits` | internal/scheduler/dispatcher.go:60-66 | a skipped job fitted no node at its turn and fits none when the pass ends |
| `Dispatcher.NothingLeftFits` | internal/scheduler/dispatcher.go:58-69 | a pass that placed fewer than the limit leaves no candidate that fits any node |
| `Dispatcher.NoPriorityInversion` | internal/scheduler/dispatcher.go:54-68 | a job placed after a better one was skipped never took what the better one could have used |
| `GpuLedger.BalanceExactly` | internal/store/store.go:155-195 | under every interleaving of dispatchers on stale listings and of any releases, free plus outstanding grants stays constant throughout if and only if each release gives back a recorded grant, does nothing, or goes to an entirely free node |
| `GpuLedger.EveryRunBalances` | internal/scheduler/dispatcher.go:96-144 | the same from every quiet store |
| `GpuLedger.DispatchersNeverOvercommit` | internal/scheduler/dispatcher.go:96-112 | without releases every node keeps 0 <= free <= total, and free plus all grants ever made on it is what it started with |
| `GpuLedger.StepKeepsInv` | internal/scheduler/dispatcher.go:96-144 | each repository call of any dispatcher keeps the balance, a release if it is one of those three kinds |
| `GpuLedger.BadReleaseUnbalances` | internal/store/store.go:182-195 | any other release breaks the balance at once |
| `GpuLedger.ReleaseIsNotClamped` | internal/store/store.go:182-195 | releasing a recorded grant never reaches the clamp |
| `GpuLedger.UnrecordedReleaseExactly` | internal/store/store.go:189-193 | a release without a recorded grant keeps the balance if and only if the node is entirely free |
| `PlacementPolicy.OneGrantPerJob` | internal/scheduler/dispatcher.go:82-125 | in every run in which no two calls schedule one job at once and no job is scheduled again before its last GPU placement is released, no job ever has two unreleased grants, however releases are timed |
| `PlacementPolicy.RunsBalanceExactly` | internal/scheduler/dispatcher.go:114-144 | when operations on one job do not overlap and it is not scheduled again before its release, the balance holds throughout if and only if every release is owed, does nothing, or goes to an entirely free node, all of which callers can see |
| `ExactGrants.OneGrantExactly` | internal/scheduler/dispatcher.go:82-125 | however calls overlap and jobs are retried, no job ever has two unreleased grants if and only if every allocation that goes through is for a job neither owed a release nor granted to another call; releases may come at any time but between an allocation for the job and its record |
| `ExactGrants.OneGrantRunsBalanceExactly` | internal/scheduler/dispatcher.go:82-144 | in the runs in which no job ever has two unreleased grants, the balance holds throughout if and only if every release is owed, does nothing, or goes to an entirely free node |
| `ExactGrants.StepAccounted` | internal/scheduler/dispatcher.go:82-144 | each step of such a run keeps every unreleased grant either owed or in the hands of exactly one call |
| `ExactGrants.UnclearGrantsTwice` | internal/scheduler/dispatcher.go:106-112 | an allocation for a job that is owed a release or granted to another call is its second unreleased grant |
| `ExactGrants.ReleaseSettlesOwed` | internal/store/store.go:182-195 | outside that window a release settles the grant of a job that is owed one, and no grant otherwise |
| `PlacementPolicy.CarefulRunsBalance` | internal/scheduler/dispatcher.go:114-144 | if each placement is released at most once, and before the next one of that job, and calls on a job do not overlap, every node keeps 0 <= free <= total, the balance holds throughout, the clamp cuts nothing, and no job has two unreleased grants |
| `PlacementPolicy.StepTracked` | internal/scheduler/dispatcher.go:82-144 | each step of such a run keeps every unreleased grant tied to its job's stored node and GPUs, or to the call that is about to store them |
| `PlacementPolicy.ReleaseRuleIsExact` | internal/scheduler/dispatcher.go:138-144 | what callers can tell about a release is what the ledger says about it |
| `BrokenPolicies.OverlappingCallsGrantTwice` | internal/scheduler/dispatcher.go:82-125 | a run of two overlapping calls that keeps the other rules and gives one job two unreleased grants |
| `BrokenPolicies.RetriedJobIsGrantedTwice` | internal/scheduler/dispatcher.go:82-125 | a run of calls that never overlap, with a retry in place of a release, that gives one job two unreleased grants |
| `BrokenPolicies.ReleasedTwiceUnbalances` | internal/store/store.go:182-195 | a run that releases one placement twice, keeps the other rules, and takes GPUs another job still holds |
| `BrokenPolicies.SecondGrant` | internal/scheduler/dispatcher.go:82-112 | from any state and any store, an unreleased grant, a schedulable record, a fitting node (under best fit the tightest) and an idle dispatcher are enough for a second grant |
| `Store.SortJobs` | internal/store/store.go:85-90 | the listing order is a permutation sorted by priority, then age |
| `Store.SortKeepsListing` | internal/store/store.go:78-92 | sorting keeps every stored job listed once |
| `Store.MemoryStore.UpdateJob` | internal/store/store.go:58-66 | an unknown job is an error and changes nothing |
| `Store.MemoryStore.ListJobs` | internal/store/store.go:78-92 | every stored job once, higher priorities first and older jobs first among equals, for every map iteration order |
| `Store.MemoryStore.UpdateExecution` | internal/store/store.go:102-110 | an unknown execution is an error and changes nothing; the index never changes |
| `Store.MemoryStore.ListOnlineNodes` | internal/store/store.go:155-165 | every stored online node once, in any order |
| `Store.MemoryStore.AllocateGpu` | internal/store/store.go:167-180 | succeeds exactly when the node is known and has enough free, and then lowers its free count by that many |
| `Store.MemoryStore.ReleaseGpu` | internal/store/store.go:182-195 | raises the free count, to the node's total at most; an unknown node is an error |
| `Lifecycle.EveryHistoryIsConsistent` | internal/service/execution_service.go:39-153 | over every history of calls that do not overlap, executions = automatic retries + manual retries from failed + the current one, retries stay within the limit, a failed job has used up all of them, attempts never decrease, the index partitions the executions, and the counters agree with the store |
| `Lifecycle.StepKeepsInv` | internal/service/execution_service.go:39-153 | each service step keeps all of that |
| `Lifecycle.StepKeepsIndex` | internal/store/store.go:94-110 | recording and updating executions keeps the index a partition of the executions by job, without duplicates |
| `Lifecycle.NewIdIsNew` | internal/service/id.go:11-14 | a generated identifier is in no use yet, so creating never overwrites a job or an execution |
| `Lifecycle.SucceededExactlyOnce` | internal/service/execution_service.go:77-91 | a job has exactly one succeeded execution if and only if it succeeded |
| `Lifecycle.TerminalIsAbsorbing` | internal/service/job_service.go:72-107 | succeeded and cancelled jobs never change again |
| `Lifecycle.QuiescentRuntimeCount` | internal/service/execution_service.go:91-92 | when nothing runs, the runtime count and the running counter equal the number of executions |
| `Lifecycle.ExecutionOfIdleJob` | internal/service/execution_service.go:47-66 | a running execution belongs to a stored, running job |
| `Services.Platform.CreateJob` | internal/service/job_service.go:23-54 | the first failed check is reported and changes nothing; a request with a name, a known type, an executor, a command and no negative number is always accepted, and stored pending with its own fields |
| `Services.Platform.CancelJob` | internal/service/job_service.go:72-88 | exactly pending, scheduled and retrying jobs become cancelled; other calls change nothing |
| `Services.Platform.RetryJob` | internal/service/job_service.go:90-107 | exactly failed and retrying jobs become pending again; other calls change nothing |
| `Services.Platform.BeginRun` | internal/service/execution_service.go:49-67 | recording the execution and marking the job running is a legal start with the next attempt number |
| `Services.Platform.FinishSucceeded` | internal/service/execution_service.go:77-94 | a successful end is a legal success step of job, execution and counters together |
| `Services.Platform.FinishFailed` | internal/service/execution_service.go:121-153 | a failed end makes the job retrying with one more retry if any is left and failed otherwise, with the matching counters, as one legal step |
| `Services.Platform.FinishRun` | internal/service/execution_service.go:70-94 | the executor's outcome decides whether the job ends succeeded, retrying with one more retry, or failed |
| `Services.Platform.RunScheduled` | internal/service/execution_service.go:49-95 | a scheduled job is started and ended with the executor's outcome, and no other job changes |
| `Services.Platform.ScheduleJob` | internal/scheduler/dispatcher.go:73-93 | a call places one job by a greedy turn, or changes nothing and says why |
| `Services.Platform.TakeScheduled` | internal/service/execution_service.go:40-48 | the stored job is used as it is if it is scheduled and placed by one greedy turn if it is schedulable; otherwise, or when it fits no node, nothing changes |
| `Services.Platform.RunJob` | internal/service/execution_service.go:39-95 | every call is a legal history ending in the executor's outcome; it changes nothing exactly when the job is unknown, neither scheduled nor schedulable, or fits no node; a CPU job is never refused; a placed job takes its GPUs from a best-fitting node and nothing gives them back |
| `Services.Platform.Schedule` | internal/scheduler/dispatcher.go:49-70 | a pass on the platform is the greedy pass over the ranked schedulable jobs, a legal history of placements of distinct jobs, stored as returned, with its exact effect on the nodes |
| `Services.Platform.DispatchPending` | internal/service/execution_service.go:97-111 | the jobs the greedy pass placed run in placement order until the first failure, whose error is returned with the executions before it; the nodes are left as the pass left them |
| `Services.NothingIsReturned` | internal/service/execution_service.go:77-94 | over every history of service calls a node's free count falls by all GPUs ever placed on it, whether the jobs have ended or not |
| `Services.PassIsPlacements` | internal/scheduler/dispatcher.go:49-70 | every greedy pass is a legal history and leads to the same store and counters |
| `Pipeline.NothingLostNothingTwice` | internal/otelgateway/pipeline/manager.go:103-113 | at every point of every schedule each shard has accepted exactly the submitted payloads that met it with room; accepted = queued + in flight + finished, dequeuing follows acceptance, and nothing is exported twice |
| `Pipeline.AcceptsWhileThereIsRoom` | internal/otelgateway/pipeline/manager.go:103-113 | over every schedule the payloads submitted to a shard are those it accepted, in order, plus the drops, each of which met a full queue |
| `Pipeline.SubmitIsTakenExactly` | internal/otelgateway/pipeline/manager.go:105-112 | a submit appends to its shard's queue while fewer than `capacity` payloads are queued there, and changes nothing exactly at `capacity` |
| `Pipeline.ExportsPassAllProcessors` | internal/otelgateway/pipeline/manager.go:237-256 | over every schedule the processors have passed on at least as many payloads as all of them together pass for the exports |
| `Pipeline.EveryHookRuns` | internal/otelgateway/pipeline/manager.go:143-159 | whenever the exporters are down every hook has run exactly once |
| `Pipeline.WorkersAreEven` | internal/otelgateway/pipeline/manager.go:89-95 | each shard gets exactly the configured number of workers |
| `Pipeline.StepKeepsInv` | internal/otelgateway/pipeline/manager.go:76-160 | every step of submitters, workers and shutdown keeps the invariant |
| `Pipeline.InitEstablishesInv` | internal/otelgateway/pipeline/manager.go:76-99 | a started pipeline has a worker for every shard and satisfies the invariant |
| `Pipeline.DrainStep` | internal/otelgateway/pipeline/manager.go:232-259 | after the channels are closed every step uses up a bounded resource |
| `Pipeline.DrainProgress` | internal/otelgateway/pipeline/manager.go:138-160 | after the channels are closed some step is possible until the exporters are shut down |
| `Pipeline.DrainTerminates` | internal/otelgateway/pipeline/manager.go:134-160 | after the channels are closed every schedule is finite |
| `Pipeline.HooksRunAfterTheLastPayload` | internal/otelgateway/pipeline/manager.go:142-158 | when hooks may run, every accepted payload has been finished exactly once, and only hooks and exporter shutdown remain |
| `Pipeline.SoleWorkersExportInOrder` | internal/otelgateway/pipeline/manager.go:76-99 | in every run of a pipeline started with one worker per shard, a shard exports an ordered selection of what it accepted |
| `Pipeline.ExportsKeepAcceptanceOrder` | internal/otelgateway/pipeline/manager.go:232-259 | the same from any point at which the shard has a sole worker and has exported in order so far |
| `Pipeline.DepthIsBounded` | internal/otelgateway/pipeline/manager.go:216-222 | the queues together never hold more than shards times capacity |
| `Pipeline.DepthNeverExceedsQueueSize` | internal/otelgateway/pipeline/manager.go:41-61 | with the manager's capacities the depth never exceeds the larger of queue size and shard count |
| `Sharding.ExtractServiceName` | internal/otelgateway/pipeline/manager.go:195-204 | the value of the first service.name attribute that has one; empty if and only if none has |
| `Sharding.HashToShard` | internal/otelgateway/pipeline/manager.go:207-214 | the shard is in range |
| `Sharding.PublishedHashes` | internal/otelgateway/pipeline/manager.go:211-213 | the hash gives the published 32-bit FNV-1a values |
| `Sharding.ShardIndex` | internal/otelgateway/pipeline/manager.go:163-176 | the shard of any payload is in range, also without resources or a name |
| `Sharding.OneServiceOneShard` | internal/otelgateway/pipeline/manager.go:163-176 | payloads of one service meet in one shard whatever their other attributes |
| `Sharding.TotalCapacity` | internal/otelgateway/pipeline/manager.go:41-54 | the shard capacities add up to at most the queue size, or one payload each, and one more payload a shard would exceed the queue size |
| `TokenBucket.AdmitsExactly` | internal/otelgateway/processor/ratelimit/ratelimit.go:56-76 | a call is admitted if and only if no window ending at it would exceed its allowance |
| `TokenBucket.WindowBound` | internal/otelgateway/processor/ratelimit/ratelimit.go:56-76 | the cost admitted in any window is at most capacity plus rate times length |
| `TokenBucket.ErasingRejectedCalls` | internal/otelgateway/processor/ratelimit/ratelimit.go:64-73 | leaving out any rejected calls changes no other decision |
| `TokenBucket.RefillsCompose` | internal/gateway/limiter.go:44-52 | two refills are one refill at the later time |
| `TokenBucket.TraceStaysValid` | internal/otelgateway/processor/ratelimit/ratelimit.go:56-76 | a bucket is never overdrawn or overfull |
| `TokenBucket.NewBucketIsFull` | internal/otelgateway/processor/ratelimit/ratelimit.go:45-53 | a new processor bucket is full, and valid if and only if the rate is zero, or positive with a burst that is not negative |
| `TokenBucket.NewGatewayBucketIsValid` | internal/gateway/limiter.go:18-29 | a new gateway bucket is valid for every configured rate, also zero or negative ones |
| `TokenBucket.FirstRequest` | internal/gateway/limiter.go:18-41 | a gateway bucket starts with one second's worth of tokens under a capacity of two, at least one a second, and its first request is admitted and takes one |
| `RateLimiters.ModelsDoNotInteract` | internal/gateway/limiter.go:72-91 | the registry holds for every model seen exactly the bucket its own calls produce |
| `RateLimiters.EachModelIsLimitedAlone` | internal/gateway/limiter.go:72-91 | each request is decided as if its model's bucket, created at first use, saw only that model's calls |
| `RateLimiters.Limiter.TryConsume` | internal/otelgateway/processor/ratelimit/ratelimit.go:56-76 | the call refills by elapsed time times rate, up to the capacity, and is admitted exactly if the cost is then covered; that is the specified bucket |
| `RateLimiters.Registry.Allow` | internal/gateway/limiter.go:72-91 | one request changes or creates the bucket of its model only; a new bucket has the model's own rate if one is configured and the default otherwise |
| `RateLimiters.Registry.LimiterFor` | internal/gateway/limiter.go:73-90 | the model's limiter is found, or created with the configured rate |
| `Sampler.Processor.ProcessTraces` | internal/otelgateway/processor/sampler/sampler.go:57-109 | compacting the three levels of slices in place leaves what the pure filter gives, with the recounted spans; the rates at the ends pass on or drop the payload |
| `Sampler.Processor.SetRate` | internal/otelgateway/processor/sampler/sampler.go:34-46 | the stored rate is always the clamped one |
| `Sampler.CompactResources` | internal/otelgateway/processor/sampler/sampler.go:70-90 | the outer loop keeps the resources that have sampled spans, in order, in the same array |
| `Sampler.CompactScopes` | internal/otelgateway/processor/sampler/sampler.go:73-85 | the middle loop keeps the scopes that have sampled spans, in order, in the same array |
| `Sampler.CompactResource` | internal/otelgateway/processor/sampler/sampler.go:72-90 | one turn of the outer loop appends the filtered resource exactly when some scope is left, and disturbs no kept one |
| `Sampler.CompactScope` | internal/otelgateway/processor/sampler/sampler.go:74-84 | one turn of the middle loop appends the filtered scope exactly when some span is left, and disturbs no kept one |
| `Sampler.ScopeSpans.Filter` | internal/otelgateway/processor/sampler/sampler.go:75-84 | the inner loop keeps exactly the sampled spans in order; without any it changes nothing |
| `Sampler.ResourceSpans.Filter` | internal/otelgateway/processor/sampler/sampler.go:73-89 | a resource is kept if and only if some scope is, and then holds the kept scopes |
| `Sampler.TracePayload.Recount` | internal/otelgateway/processor/sampler/sampler.go:98-105 | the nested loops count the spans of the tree |
| `Sampling.SampledHoldsExactlyTheSampledSpans` | internal/otelgateway/processor/sampler/sampler.go:70-109 | the output's spans are the sampled spans in their order, the count is their number, no branch is empty, and nothing comes out if and only if nothing was sampled |
| `Sampling.KeptExactly` | internal/otelgateway/processor/sampler/sampler.go:75-119 | a rate keeps the spans without a trace id and those whose halved hash, plus one, is at most the rate times 2^63 |
| `Sampling.KeptPositions` | internal/otelgateway/processor/sampler/sampler.go:82-86 | the kept spans are the sampled ones, all of them, at increasing positions |
| `Sampling.PublishedHashes` | internal/otelgateway/processor/sampler/sampler.go:117-119 | the hash is half the published 64-bit FNV-1a value |
| `Sampling.TwoPassesAreTheSmallerRate` | internal/otelgateway/processor/sampler/sampler.go:57-121 | sampling at two rates in turn is sampling at the smaller one, tree and count alike |
| `Sampling.HigherRateKeepsMore` | internal/otelgateway/processor/sampler/sampler.go:57-121 | raising the rate only adds spans |
| `Sampling.KeptSpansOf` | internal/otelgateway/processor/sampler/sampler.go:72-90 | filtering the tree is filtering the list of its spans |
| `Sampling.ThresholdIsMonotone` | internal/otelgateway/processor/sampler/sampler.go:69 | a higher rate gives a threshold at least as high |
| `BenchmarkSummary.FiguresAreOrdered` | internal/benchmark/metrics.go:40-89 | with a success, min <= P50 <= P95 <= P99 <= max and min <= average <= max after rounding, the ends are the rounded extremes, and successes and errors add up |
| `BenchmarkSummary.SummaryIgnoresOrder` | internal/benchmark/metrics.go:40-89 | the summary depends on the multiset of samples only |
| `BenchmarkSummary.Summarize` | internal/benchmark/metrics.go:40-89 | the one-pass loop and sort compute the specified summary, for no samples and for no successes too |
| `BenchmarkSummary.FiguresInFull` | internal/benchmark/metrics.go:64-88 | total, successes, rates and averages are the sums over the samples they should be, divided by the right counts and rounded to their digits, and the percentiles are the 50th, 95th and 99th |
| `BenchmarkSummary.AscendingIsUnique` | internal/benchmark/metrics.go:62 | a list has one sorted arrangement, so the library's sort is determined by its contract |
| `BenchmarkSummary.MeanIsBetween` | internal/benchmark/metrics.go:66 | the unrounded average lies between the extremes |
| `Percentiles.PercentilesAreOrdered` | internal/benchmark/metrics.go:91-103 | percentiles grow with p and stay between the rounded ends |
| `Percentiles.IndexInRange` | internal/benchmark/metrics.go:95-97 | both neighbours of the index are positions of the list |
| `Percentiles.InterpolateLiesBetween` | internal/benchmark/metrics.go:98-102 | an interpolated value lies between its two order statistics |
| `Percentiles.InterpolateIsLinear` | internal/benchmark/metrics.go:95-102 | between two neighbours the value moves in a straight line; at their middle it is their mean |
| `Percentiles.PercentileInFull` | internal/benchmark/metrics.go:91-103 | percentile p of n values is read at position p * (n - 1) |
| `Percentiles.InterpolateIsMonotone` | internal/benchmark/metrics.go:95-102 | a larger index never interpolates to a smaller value |
| `Rounding.RoundIsMonotone` | internal/benchmark/metrics.go:126-129 | rounding never turns an order around |
| `Rounding.RoundIsNear` | internal/benchmark/metrics.go:126-129 | a rounded value is at most half a unit of its last place away |
| `Rounding.NearestOfHalves` | internal/benchmark/metrics.go:126-129 | whole numbers stay and halves go away from zero, on either side |
| `Rounding.RoundHasFewDigits` | internal/benchmark/metrics.go:126-129 | a rounded value is a whole number of hundredths, thousandths or ten-thousandths |
| `Shuffling.FindBackends` | internal/gateway/router.go:165-175 | for every run of draws the candidates are the healthy backends serving the model, each as often as listed, in shuffled order |
| `Shuffling.WeightedShuffle` | internal/gateway/router.go:246-258 | the in-place loop performs the specified turns |
| `Shuffling.GetHealthyBackends` | internal/gateway/health.go:66-76 | the healthy backends in their listed order |
| `Shuffling.SupportsModel` | internal/model/backend.go:14-21 | true if and only if the model is listed |
| `Shuffling.MatchingCounts` | internal/gateway/router.go:166-172 | matching keeps every healthy supporting backend as often as it is listed, and no other |
| `Shuffling.MatchingPositions` | internal/gateway/router.go:166-172 | the matching backends are the healthy ones that list the model, all of them, in listed order |
| `Shuffling.ShufflePermutes` | internal/gateway/router.go:246-258 | a shuffle permutes its input |
| `Shuffling.ShuffleRaisesPrefixes` | internal/gateway/router.go:251-257 | no prefix ends up with less weight than it had |
| `Shuffling.ShuffleLowersInversions` | internal/gateway/router.go:251-257 | either nothing moved or the number of weight inversions fell |
| `Shuffling.SwapLowersInversions` | internal/gateway/router.go:254-256 | one swap adds no inversion and removes at least one |
| `Shuffling.ShuffleMovesExactly` | internal/gateway/router.go:251-257 | some draws move something if and only if a heavier backend stands behind a lighter one |
| `Shuffling.EqualWeightsNeverMove` | internal/gateway/router.go:251-257 | a list of equal weights is never reordered |
| `Shuffling.EqualWeightsCanBeReordered` | internal/gateway/router.go:251-257 | two backends of equal weight can change places once a heavier one stands behind them |
| `Failover.FailoverPicks` | internal/gateway/router.go:118-161 | the reply comes from the first candidate below 500, else from the last one if it answered, else it is 502 |
| `Failover.CalledExactly` | internal/gateway/router.go:119-145 | the candidates called are, in order, those whose request could be built and before whom nobody answered below 500 |
| `Failover.ClientErrorExactly` | internal/gateway/router.go:138-161 | the client sees a 5xx if and only if no candidate answered below 500 |
| `Failover.Exchange.TryEach` | internal/gateway/router.go:118-161 | the loop writes one reply, calls the candidates in turn up to the accepted one, and leaves no response body open |
| `Failover.Exchange.ProxyInference` | internal/gateway/router.go:95-161 | every request gets exactly one reply: 400 when unreadable or without a model, 429 over the rate, 503 without a candidate, else the first answer below 500 or 502 when nobody answered; backends are called only for admitted requests |

## Left out

- GpuLedger.BalanceExactly: re-registering or updating a node while grants are outstanding is not a step of the ledger runs.
- PlacementPolicy.OneGrantPerJob: not claimed for all interleavings, because the status check and the update are not one critical section; the rules under which it holds are proved and shown to be needed, and `ExactGrants.OneGrantExactly` says when exactly it holds.
- ExactGrants.OneGrantExactly: runs in which a release takes back a grant that a call has not recorded yet are left out.
- Dispatcher.Dispatch.ReleaseJobResources: line 156 of the repository's README.md says GPUs are returned when a job completes or fails, but neither `RunJob`, `finishFailed` nor `CancelJob` makes this call. The model follows the code: a release is a step of its own, and `Services.NothingIsReturned` says what the services alone do. Callers pass the job's current record.
- Dispatcher.Dispatch.SchedulePending: a negative limit, on which the source panics when it allocates the result, is not an input.
- Dispatcher.Dispatch.MarkScheduled: the job's `Metadata` map is one field, the assigned node; that copies of a job share the map is not modelled.
- Matcher.MatchNode: the memory request is the parsed MiB value; `parseGPUMemoryMiB` is not modelled.
- Lifecycle.EveryHistoryIsConsistent: it covers calls that do not overlap.
- Services.Platform.RunJob: executors are arbitrary outcomes, an unknown executor being one of the failures. Update times, traces, logs, manifests and exit codes are left out.
- Lifecycle.NewIdIsNew: the sequence number does not wrap at 2^64.
- WalWriter.Writer.constructor: the .wal files are segments that writers made and crashes may have torn; foreign .wal files are covered by `WalWriter.NextSegmentIsNew` only. Of the blanks `Sscanf` skips before a number the model knows those up to U+00A0.
- WalWriter.Writer.Append: I/O errors, and partial writes followed by further appends by the same writer, are not modelled; crashes that cut the newest segment are.
- WalReplay.Replay: I/O errors and the metrics are left out, among them that a checksum mismatch raises the corruption counter twice.
- WalReplay.SortNames: `sort.Strings` is an insertion sort with the same contract, as are `sort.Slice` and `sort.Float64s` elsewhere; `container/heap` is written out.
- GemmInterleaving.EveryScheduleComputesProduct: matrix sizes are not negative. Arithmetic is abstract; that the device's own floats are lawful is argued in a comment of `GemmModel.dfy`, not proved.
- Pipeline.NothingLostNothingTwice: a submit after the close, which panics in the source, is not a step. Metric shards behave like trace shards and are not repeated.
- TokenBucket.AdmitsExactly: buckets with a negative rate or capacity are left out. Buckets, and likewise percentiles, averages and sampling thresholds, are exact reals without floating-point rounding. Time is an input that does not run backwards.
- RateLimiters.Registry.Allow: the check, the lock and the second check are one atomic step.
- Sampler.Processor.ProcessTraces: payloads do not share slices or nodes; of a span only the trace id is looked at, the rest is one opaque field.
- Shuffling.FindBackends: what holds for every draw is proved; the probability of an order is not modelled.
- Failover.Exchange.ProxyInference: header copying, JSON extraction, response chunks and health probes are inputs or left out.
- Acknowledgement and deletion of log segments: announced in the log's header comment, absent from the code. Syncing to disk is left out too.
- Counter increments: they carry no rows of their own; the lifecycle states what the counters mean.
- Allocation, copying, timing and the cuBLAS program: calls into foreign code.
- MySQL and Redis stores, HTTP handlers, exporters, executors, configuration, report writers, retry backoff, fan-out, memory limiting and degradation: input and output, or single-switch logic that would add only easy members.
