# A verified model of the js2wasm harness, gates and benchmark kernels

js2wasm compiles JavaScript to WebAssembly. Around its compiler stand a pool of compiler processes that carries the
Test262 runs, scripts that decide from the results whether a change may land, and benchmarks that keep the same
algorithm as JavaScript and as compiled source. This project models the parts of that layer where an error would be
hardest to see, in Dafny 4.11, and proves what they promise. `dafny verify dfyconfig.toml` checks everything.

* **The compiler pool** (`PoolModel`, `PoolInvariant`, `PoolTheorems`, `PoolReady`, `PoolPayload`,
  `CompilerPoolClass`). A state and one step per event: enqueue, `ready`, reply, reply with recycling, timeout, crash or
  exit, shutdown. The theorems are about every sequence of events. The class `CompilerPool` updates the source's own fields in place and each of its handlers is
  proved to be the corresponding step. What lies outside the class is part of the state: armed timers, attached
  listeners, messages sent, promises settled, processes signalled.
* **The batch producer** (`BatchProducer`). The counting semaphore of `processBatch` with its one sleeping producer, the
  paths through a job, and the slicing into batches.
* **Emitted WebAssembly** (`Wasm`, `EmittedLoops`, `EmittedScans`). An interpreter for the instructions the benchmark
  emits (section 4.4 of the WebAssembly Core Specification) and proofs of what the emitted lists compute.
* **The fiber reconciler** (`FiberTree`, `Reconciler`, `ReconcilerRun`, `CompiledReconciler`). The linked tree, the walk
  without a stack, and both versions of the benchmark, against a definition that never builds a tree.
* **The scheduler heap and the zlib kernels** (`SchedulerHeap`, `CompiledHeap`, `Crc32`, `Adler32`, `Lz77`, `BitReader`).
* **Scope analysis** (`ScopeTree`, `ScopeScan`, `HarnessScan`, `ScopeLanguage`, `ScopeExactness`). The two-pass
  stack-based scan for free names, against a recursive definition of its own rules and against the free names of
  ECMA-262.
* **Canary manifests** (`Ordered`, `CanaryManifest`, `CanaryValidator`, `CanaryDiff`, `CanaryCheck`, `CanaryExtend`).
  The manifest as an encoding of the canaries recorded in it; the validator accepts exactly such encodings.
* **Edition accounting** (`EditionRatchet`, `EditionGate`, `EditionClassify`, `EditionBuckets`). The floor per edition
  over histories of updates, the two checks against it, and the bucketing of results.

## What the code does that its own words do not say

* After a crash the interrupted job goes back to the front of the queue without a dispatch, so it can wait beside an idle
  worker; never-dispatched jobs cannot (`InterruptedJobCanWaitBesideAnIdleWorker`, `NoFreshJobWaitsForAnIdleWorker`).
* The compiled reconciler does not round its update count, so it makes one more update per iteration than the JavaScript
  version unless `n * updatePercent` is a multiple of 100 (`CountsAgree`, `ProgramsCanDisagree`).
* Of the calls of `ready()` made before all workers have announced themselves only the last is ever settled
  (`ReadySettlesLastAndLater`, `OverwrittenCallIsLost`).
* The harness scan's scopes differ from the language's. Some reach too far, so that a free use is missed: the variable of
  a catch clause, a `var` of a static block and the `var`s of a function body (seen from its parameters) are hoisted too
  far; the name of a class expression and the lexical declarations of loop heads and case blocks land in the scope around;
  a computed key is taken to see its method's parameters. And some names are reported that are not free: accessor names,
  property names of binding patterns, the outer names of exports, `new.target` and the like, `arguments`, and imports.
  `ScanIsExactIff` says exactly when the scan is right about a name; `ScopeExactness` has a lemma at an input for each case.
* With no slot at all (`COMPILER_POOL_SIZE=0`) the producer sleeps forever (`NoSlotsMeansDeadlock`), with no batch
  (`COMPILER_BATCHES=0`) nothing is processed (`RunBatches`), and a job whose result cannot be written after it was skipped
  is counted twice (`JobIsCountedOnce`).
* An entry of the ratchet baseline whose total and pass count are both zero or less can leave the baseline, and its flag
  with it (`SafeIffPositive`); the same entry makes the count check throw (`EditionGate.Check`).
* The count check sees every row, the per-test check only the last row of a file. A clean per-test check settles the count
  check, whatever the statuses, exactly when the earlier run lists every file of each gated edition once and this run lists
  it too (`TestsSettleCountsIff`). So duplicates in the earlier run matter (`DuplicateRowsSeparateTheChecks`), duplicates in
  this run do not.
* Deduplication by worst status is said to be independent of row order. It is exactly when the worst rows of a file are
  counted alike (`OrderFreeIffWorstAgree`); in host-free mode two passes of which one leaks a host import are not
  (`HostFreeLaneDependsOnOrder`).
* A feature tag that names an inherited object property, such as the real tag `__proto__`, never gets a slice
  (`EditionBuckets.AddToSlices`, `ProtoTagHasNoSlice`).

## Model

| member | source | states |
|---|---|---|
| `PoolTheorems.RunKeepsInvariant` | scripts/compiler-pool.ts:82-414 | every state reached by any sequence of events satisfies the invariant that all pool theorems rest on |
| `PoolTheorems.ExactlyOnePlace` | scripts/compiler-pool.ts:269-402 | in every reachable state each id below `nextId` is waiting, running or settled, exactly one of the three, and no other id is any |
| `PoolTheorems.NeverSettledTwice` | scripts/compiler-pool.ts:131-169 | in every interleaving no promise is settled twice |
| `PoolTheorems.HistoryGrows` | scripts/compiler-pool.ts:131-413 | no event takes back a settlement, a sent message or an id |
| `PoolTheorems.PendingIsActive` | scripts/compiler-pool.ts:282-336 | pending ids are exactly the ids of forks' active jobs, armed timers are exactly those jobs' timers, a fork is busy iff it has an active job, and busy implies ready |
| `PoolTheorems.TimerHitsItsOwnFork` | scripts/compiler-pool.ts:296-319 | a firing timer settles the job it was armed for and kills and replaces the process running that very job, and no other fork changes |
| `PoolTheorems.ReplyFreesItsOwnFork` | scripts/compiler-pool.ts:145-162 | an accepted reply settles the job its own fork was running; no other busy fork is touched; with recycling the fork gets a new process, without it keeps its own, as ready as before |
| `PoolTheorems.FailureReplacesIffReady` | scripts/compiler-pool.ts:344-402 | a worker that dies gets a new, heard, uncounted process, its old one signalled and silenced, iff it had announced itself; one that dies before keeps its process; no other fork changes |
| `PoolTheorems.StaleReplyIsIgnored` | scripts/compiler-pool.ts:150-151 | a reply to a settled id changes nothing |
| `PoolTheorems.DispatchOrder` | scripts/compiler-pool.ts:277-289 | in every reachable state the queue is interrupted jobs followed by exactly the never-sent ids in order, first dispatches followed id order, and no job was sent more than twice |
| `PoolTheorems.WeightFalls` | scripts/compiler-pool.ts:361-378 | every dispatch, reply, timeout and busy-worker crash is paid for out of a weight that only a new job raises, by 4 |
| `PoolTheorems.RunIsBounded` | scripts/compiler-pool.ts:80-402 | over any run of `n` jobs dispatches and worker-ending events number at most `4 n` |
| `PoolTheorems.NoFreshJobWaitsForAnIdleWorker` | scripts/compiler-pool.ts:282-336 | while the pool is open, a worker is idle only if every waiting job is an interrupted one |
| `PoolTheorems.InterruptedJobCanWaitBesideAnIdleWorker` | scripts/compiler-pool.ts:361-383 | a run after which an interrupted job waits beside an idle worker |
| `PoolTheorems.SettledJobIsNeverSentAgain` | scripts/compiler-pool.ts:282-384 | once settled, a job stays settled and is never sent again |
| `PoolTheorems.EveryOutcomeIsJustified` | scripts/compiler-pool.ts:301-378 | in every run an answer comes from a process that was sent the job, a timeout from a job that was sent, a crash verdict from one that was sent twice |
| `PoolPayload.JobsAreAsAsked` | scripts/compiler-pool.ts:269-378 | in every run a job, wherever it is, has the flag and timeout of the enqueue event with its number, and timeout and crash verdicts carry exactly those |
| `PoolTheorems.NoProcessLeaks` | scripts/compiler-pool.ts:387-413 | every process ever forked is some fork's current one or has been signalled; after shutdown all have been |
| `PoolTheorems.ShutdownIsFinal` | scripts/compiler-pool.ts:282-413 | after shutdown nothing is sent or forked any more |
| `PoolTheorems.ReadyMeansAllAnnounced` | scripts/compiler-pool.ts:172-177 | the promise of `ready()` is settled only after all the initial processes have announced themselves |
| `PoolReady.ReadySettlesLastAndLater` | scripts/compiler-pool.ts:135-177 | in every reachable state no call of `ready()` is settled until all initial processes have announced themselves, and then exactly the last one made before and all made since are |
| `PoolReady.OverwrittenCallIsLost` | scripts/compiler-pool.ts:172-177 | a call whose resolver was overwritten is never settled, however the run goes on |
| `PoolReady.OnlyAnnouncedWorkersWork` | scripts/compiler-pool.ts:135-138 | in every run jobs are sent only to processes that have announced themselves |
| `PoolInvariant.StepKeeps` | scripts/compiler-pool.ts:131-413 | every event the outside world can cause keeps the invariant |
| `PoolInvariant.DispatchKeeps` | scripts/compiler-pool.ts:282-336 | the whole dispatch loop keeps the invariant |
| `PoolInvariant.ReplyIsOurs` | scripts/compiler-pool.ts:145-162 | a reply that finds its id pending comes from the fork that is running that job |
| `PoolInvariant.ReplyKeeps` | scripts/compiler-pool.ts:145-162 | a reply, with or without recycling, keeps the invariant |
| `PoolInvariant.TimeoutKeeps` | scripts/compiler-pool.ts:296-319 | a timeout keeps the invariant |
| `PoolInvariant.FailureKeeps` | scripts/compiler-pool.ts:344-384 | a crash or exit keeps the invariant |
| `PoolInvariant.RespawnKeeps` | scripts/compiler-pool.ts:387-402 | replacing an idle fork's process keeps the invariant |
| `PoolInvariant.ReadyKeeps` | scripts/compiler-pool.ts:135-143 | a `ready` message keeps the invariant |
| `PoolInvariant.ShutdownKeeps` | scripts/compiler-pool.ts:405-413 | shutdown keeps the invariant |
| `PoolModel.FindFree` | scripts/compiler-pool.ts:285 | the first fork that is ready and not busy, or the length |
| `CompilerPoolClass.CompilerPool.constructor` | scripts/compiler-pool.ts:92-108 | the new pool is the initial state |
| `CompilerPoolClass.CompilerPool.Enqueue` | scripts/compiler-pool.ts:269-280 | updates the fields as the enqueue step does |
| `CompilerPoolClass.CompilerPool.AssignTo` | scripts/compiler-pool.ts:288-334 | one round of the dispatch loop, as its step does |
| `CompilerPoolClass.CompilerPool.Dispatch` | scripts/compiler-pool.ts:282-336 | the loop does what repeated assignment does |
| `CompilerPoolClass.CompilerPool.AwaitReady` | scripts/compiler-pool.ts:172-177 | updates the fields as the `ready()` step does |
| `CompilerPoolClass.CompilerPool.ReadyMessage` | scripts/compiler-pool.ts:133-143 | updates the fields as the ready step does |
| `CompilerPoolClass.CompilerPool.ReplyMessage` | scripts/compiler-pool.ts:145-162 | updates the fields as the reply step does |
| `CompilerPoolClass.CompilerPool.TimerFires` | scripts/compiler-pool.ts:296-319 | updates the fields as the timeout step does |
| `CompilerPoolClass.CompilerPool.HandleForkFailure` | scripts/compiler-pool.ts:344-384 | updates the fields as the failure step does |
| `CompilerPoolClass.CompilerPool.GiveUp` | scripts/compiler-pool.ts:361-378 | the interrupted job is requeued in front once, the second time settled as a crash |
| `CompilerPoolClass.CompilerPool.RespawnFork` | scripts/compiler-pool.ts:387-402 | updates the fields as the respawn step does |
| `CompilerPoolClass.CompilerPool.ShutDown` | scripts/compiler-pool.ts:405-413 | updates the fields as the shutdown step does |
| `BatchProducer.SemaphoreIsSound` | scripts/precompile-tests.ts:143-166 | in every interleaving `inFlight` is within its bounds, a sleeping producer has as many running jobs as there are slots, and every started job is running or ended, not both |
| `BatchProducer.NoDeadlock` | scripts/precompile-tests.ts:148-166 | with at least one slot something can always happen until everything is done: no wake-up is lost |
| `BatchProducer.NoSlotsMeansDeadlock` | scripts/precompile-tests.ts:157-166 | with no slot the producer sleeps on the first test and nothing can happen any more |
| `BatchProducer.StepsAreFinite` | scripts/precompile-tests.ts:143-325 | every step uses up a bounded amount of remaining work |
| `BatchProducer.JobIsCountedOnce` | scripts/precompile-tests.ts:174-319 | a job is counted in exactly one of compiled, cached, skipped and errors unless it is skipped and the writer throws; then it is counted as skipped and as an error |
| `BatchProducer.CounterRaised` | scripts/precompile-tests.ts:174-319 | which of the four counters each course of events raises |
| `BatchProducer.EveryJobIsCountedOnce` | scripts/precompile-tests.ts:170-321 | over any run without that the counters add up to the number of ended jobs |
| `BatchProducer.CompleteRunProcessesEverything` | scripts/precompile-tests.ts:143-325 | a run that can go no further has ended every test, released every slot and counted each test once |
| `BatchProducer.ProcessBatch.WaitForSlot` | scripts/precompile-tests.ts:157-166 | updates the shared variables as the asking step does |
| `BatchProducer.ProcessBatch.ReleaseSlot` | scripts/precompile-tests.ts:148-155 | gives back one slot and wakes the sleeper, if any, once |
| `BatchProducer.ProcessBatch.RunJob` | scripts/precompile-tests.ts:172-321 | whatever happens to a job it releases its slot exactly once and counts as specified |
| `BatchProducer.RunBatches` | scripts/precompile-tests.ts:327-334 | the batches one after the other are the list of all tests; without a positive number of batches nothing is processed |
| `Wasm.OutcomeIsUnique` | benchmarks/simd-perf.ts:37-51 | a list of instructions has at most one outcome from a given state |
| `Wasm.ExecAppend` | benchmarks/simd-perf.ts:129-148 | a concatenation executes its parts in turn and stops where the first stops |
| `Wasm.StoredWordReadsBack` | benchmarks/simd-perf.ts:136-176 | a stored word reads back and only its four bytes change |
| `EmittedLoops.LoopNRunsBodyNTimes` | benchmarks/simd-perf.ts:37-51 | for every n below 2^32 and every body that keeps the stack and the counter and does not branch out, the list ends in the state after exactly n executions, with the counter n |
| `EmittedLoops.LoopNStopsWithBody` | benchmarks/simd-perf.ts:37-51 | if some execution of the body branches out or traps, the list stops there with that outcome, two labels further out |
| `EmittedScans.FirstFrom` | benchmarks/simd-perf.ts:134-144 | the least index from k on whose element is the value sought, or the size |
| `EmittedScans.IndexOfPassRuns` | benchmarks/simd-perf.ts:132-145 | one pass adds the least index holding size - 1, nothing if there is none, and stops there |
| `EmittedScans.IndexOfFuncReturns` | benchmarks/simd-perf.ts:122-149 | the function returns N times that index modulo 2^32 and changes no memory |
| `EmittedScans.FillPassRuns` | benchmarks/simd-perf.ts:171-180 | one pass writes words 0 to size - 1 at base + 16 and no other byte |
| `EmittedScans.FillFuncFills` | benchmarks/simd-perf.ts:166-184 | the function returns 0 with the memory filled so, unchanged if N is 0 |
| `EmittedScans.FilledMeans` | benchmarks/simd-perf.ts:175-176 | every filled word reads back as 42 |
| `EmittedScans.WriteStrRuns` | benchmarks/simd-perf.ts:28-35 | the list writes exactly the bytes at the offset, and traps exactly if they do not fit |
| `FiberTree.PreorderIsPermutation` | benchmarks/react-reconciler-bench.ts:96-130 | the preorder of any tree lists each of its nodes exactly once |
| `FiberTree.MoveDown` | benchmarks/react-reconciler-bench.ts:114-115 | from a node with a child the rest of the preorder starts at that child |
| `FiberTree.MoveAcross` | benchmarks/react-reconciler-bench.ts:118-121 | after a finished subtree with a next sibling the rest starts at the sibling |
| `FiberTree.MoveUp` | benchmarks/react-reconciler-bench.ts:122 | after a finished subtree without one the rest is that of the parent |
| `FiberTree.CountIsOrderFree` | benchmarks/react-reconciler-bench.ts:102-105 | the number of changed nodes does not depend on the order of the visits |
| `FiberTree.CountOfAll` | benchmarks/react-reconciler-bench.ts:102-105 | counting over all positions gives the number of positions that changed |
| `Reconciler.FiberNode.Commit` | benchmarks/react-reconciler-bench.ts:101-111 | commits pending props, reports whether they differed, and leaves the update flag clear |
| `Reconciler.VisitNode` | benchmarks/react-reconciler-bench.ts:101-111 | the visited node is a new one of the preorder and is counted iff it changed |
| `Reconciler.JsAdvance` | benchmarks/react-reconciler-bench.ts:113-127 | moves from any visited node to the next of the preorder, or to the end after the last |
| `Reconciler.JsReconcile` | benchmarks/react-reconciler-bench.ts:96-130 | on any linked tree terminates, visits in preorder, returns the number of nodes whose pending props differ from the memoized ones, and leaves every node up to date and unflagged |
| `ReconcilerRun.AppendChild` | benchmarks/react-reconciler-bench.ts:69-78 | appending a node as last child gives the links of the grown tree |
| `ReconcilerRun.JsBuildTree` | benchmarks/react-reconciler-bench.ts:48-82 | builds, of fresh nodes, the linked tree and the props the generator determines |
| `ReconcilerRun.JsApplyUpdates` | benchmarks/react-reconciler-bench.ts:85-93 | changes pending props as the same updates change a plain sequence |
| `ReconcilerRun.JsChecksum` | benchmarks/react-reconciler-bench.ts:133-139 | the sum of the memoized states |
| `ReconcilerRun.TotalMeans` | benchmarks/react-reconciler-bench.ts:133-139 | the sum is additive over parts and the element itself for one |
| `ReconcilerRun.JsIterate` | benchmarks/react-reconciler-bench.ts:147-150 | one iteration is one round on the plain sequence of props |
| `ReconcilerRun.JsRunBenchmark` | benchmarks/react-reconciler-bench.ts:141-155 | equals the tree-free function: final props summed, plus the positions changed per round |
| `ReconcilerRun.KnownBenchmark` | benchmarks/react-reconciler-bench.ts:56-155 | two nodes, one update, seed 7: the benchmark is 210 |
| `CompiledReconciler.Program.BuildTree` | benchmarks/react-reconciler-bench.ts:183-229 | builds the same tree as the JavaScript version |
| `CompiledReconciler.Program.ApplyUpdates` | benchmarks/react-reconciler-bench.ts:231-245 | the same updates, as many as the unrounded count admits |
| `CompiledReconciler.Advance` | benchmarks/react-reconciler-bench.ts:266-284 | with flags instead of `break`, the same move |
| `CompiledReconciler.Walk` | benchmarks/react-reconciler-bench.ts:249-286 | visits the tree in preorder, with the count and the final state of the JavaScript walk |
| `CompiledReconciler.Reconcile` | benchmarks/react-reconciler-bench.ts:247-287 | without a root returns 0 and changes nothing, else the count and the final state of the JavaScript walk |
| `CompiledReconciler.Program.Checksum` | benchmarks/react-reconciler-bench.ts:289-300 | the sum of the memoized states, no node being null |
| `CompiledReconciler.Program.RunBenchmark` | benchmarks/react-reconciler-bench.ts:302-317 | equals the tree-free function with the update count rounded up |
| `CompiledReconciler.CountsAgree` | benchmarks/react-reconciler-bench.ts:304 | the two update counts are equal iff n * updatePercent is a multiple of 100, otherwise they differ by one |
| `CompiledReconciler.ProgramsAgree` | benchmarks/react-reconciler-bench.ts:141-317 | both programs return the same number whenever n * updatePercent is a multiple of 100 |
| `CompiledReconciler.ProgramsCanDisagree` | benchmarks/react-reconciler-bench.ts:141-317 | inputs on which they return 0 and 881 |
| `SchedulerHeap.CompareMeans` | benchmarks/react-scheduler-bench.ts:50-54 | the sign of the comparison decides the order by sortIndex, then by id |
| `SchedulerHeap.RootIsLeast` | benchmarks/react-scheduler-bench.ts:79-82 | the root of a heap is least among all its nodes |
| `SchedulerHeap.SameLeast` | benchmarks/react-scheduler-bench.ts:79-91 | a heap and a sorted list of the same nodes have the same first node |
| `SchedulerHeap.Scheduler.JsSiftUp` | benchmarks/react-scheduler-bench.ts:63-77 | repairs a heap that is wrong only above one index, permuting the live prefix |
| `SchedulerHeap.Scheduler.JsPush` | benchmarks/react-scheduler-bench.ts:56-61 | the live prefix stays a heap and gains exactly the node |
| `SchedulerHeap.Scheduler.JsSiftDown` | benchmarks/react-scheduler-bench.ts:93-133 | repairs a heap that is wrong only below one index, permuting the live prefix |
| `SchedulerHeap.Scheduler.JsPopSort` | benchmarks/react-scheduler-bench.ts:79-91 | returns the sort index of a least node and removes exactly that node; -1 and no change when empty |
| `SchedulerHeap.Scheduler.Run` | benchmarks/react-scheduler-bench.ts:56-91 | every sequence of pushes and pops returns what a sorted list returns, and keeps the same nodes |
| `SchedulerHeap.DrainIsSorted` | benchmarks/react-scheduler-bench.ts:79-91 | draining yields the sort indices in order, all of them, with their sum as checksum |
| `CompiledHeap.Program.SiftUp` | benchmarks/react-scheduler-bench.ts:163-177 | with every null test the same repair, and no live slot is ever null |
| `CompiledHeap.Program.SiftDown` | benchmarks/react-scheduler-bench.ts:179-219 | with every null test the same repair, and no live slot is ever null |
| `CompiledHeap.Program.PushItem` | benchmarks/react-scheduler-bench.ts:221-227 | the live slots stay a heap without nulls and gain exactly the node |
| `CompiledHeap.Program.PopSort` | benchmarks/react-scheduler-bench.ts:229-242 | returns the sort index of a least node and removes exactly that node; -1 and no change only when empty |
| `CompiledHeap.Program.Run` | benchmarks/react-scheduler-bench.ts:221-242 | every sequence of pushes and pops returns what a sorted list returns, as for the JavaScript heap |
| `CompiledHeap.BenchmarkInternal` | benchmarks/react-scheduler-bench.ts:251-277 | the checksum is the sum of the generated priorities |
| `SchedulerHeap.KnownPriorities` | benchmarks/react-scheduler-bench.ts:259-260 | the first two priorities for seed 7 |
| `Crc32.ShiftsAreLinear` | benchmarks/pako-bench.ts:239-241 | any number of bit steps is linear over exclusive or |
| `Crc32.EightSteps` | benchmarks/pako-bench.ts:239-254 | eight bit steps are a shift by eight combined with the table entry of the low byte |
| `Crc32.TableRound` | benchmarks/pako-bench.ts:254 | one table round is the bit-at-a-time treatment of one byte |
| `Crc32.BuildTable` | benchmarks/pako-bench.ts:236-243 | entry n is n after eight bit steps |
| `Crc32.JsCrc32` | benchmarks/pako-bench.ts:234-257 | for every byte sequence the result is the bit-at-a-time CRC-32 of section 8 of RFC 1952 |
| `Crc32.PolynomialMeans` | benchmarks/pako-bench.ts:240 | the constant has exactly the terms of the polynomial of RFC 1952, reflected |
| `Crc32.CheckValue` | benchmarks/pako-bench.ts:252-256 | the checksum of "123456789" is 0xCBF43926 |
| `Adler32.JsAdler32` | benchmarks/pako-bench.ts:216-231 | for every byte sequence the block-deferred loop, in 32-bit sums, gives the per-byte Adler-32 of section 8.2 of RFC 1950 |
| `Adler32.BlocksDoNotOverflow` | benchmarks/pako-bench.ts:222-229 | with blocks of at most 2000 bytes neither sum reaches 2^31 |
| `Adler32.KnownChecksum` | benchmarks/pako-bench.ts:216-231 | the checksum of "Wikipedia" is 0x11E60398 |
| `Lz77.MeasureMatch` | benchmarks/pako-bench.ts:276-281 | the inner loop measures the longest match at its distance |
| `Lz77.JsLz77` | benchmarks/pako-bench.ts:270-287 | the greatest match length over all allowed distances and the smallest distance reaching it |
| `Lz77.CopiedByte` | benchmarks/pako-bench.ts:279 | the i-th byte of an overlapped copy is the one at i modulo the distance |
| `Lz77.MatchIsCopy` | benchmarks/pako-bench.ts:278-281 | a match at a distance is exactly a copy as in section 3.2.3 of RFC 1951 that reproduces the lookahead |
| `Lz77.BestMatchDecodes` | benchmarks/pako-bench.ts:270-287 | decoding the pair found reproduces the start of the lookahead, and no allowed pair reproduces more |
| `BitReader.FillHold` | benchmarks/pako-bench.ts:303-306 | the register holds exactly the bytes read, low byte first |
| `BitReader.DrainHold` | benchmarks/pako-bench.ts:307-315 | draining scores exactly the held bytes in order and empties the register |
| `BitReader.JsInflateBits` | benchmarks/pako-bench.ts:298-317 | for every byte sequence the result is the sum of the bytes' scores |
| `BitReader.ScoreMeans` | benchmarks/pako-bench.ts:311-314 | a byte's score in the program's own bit operations |
| `ScopeScan.VisitMeans` | scripts/test262-linked-harness-inventory.ts:214-239 | the first pass gives every scope exactly the names the recursive definition gives it and disturbs no other scope |
| `ScopeScan.CollectMeans` | scripts/test262-linked-harness-inventory.ts:256-265 | the second pass adds exactly the free candidate names of the subtree that no scope on the stack declares |
| `ScopeScan.ConsumedIsFree` | scripts/test262-linked-harness-inventory.ts:250-268 | for every tree both passes together return exactly the candidates that are free by the recursive definition |
| `ScopeLanguage.DeclarationNamesAre` | scripts/test262-linked-harness-inventory.ts:169-188 | `isDeclarationName` excludes exactly the names that are no references in the language, but for five kinds that it misses |
| `ScopeLanguage.ScopesAre` | scripts/test262-linked-harness-inventory.ts:190-192 | `isLexicalScope` finds exactly the language's scopes, but for loops, case blocks, static blocks and class expressions |
| `ScopeLanguage.VarPlacesAre` | scripts/test262-linked-harness-inventory.ts:206-212 | `var`s are kept where the language keeps them, but for static blocks and function bodies |
| `ScopeLanguage.BindingsAre` | scripts/test262-linked-harness-inventory.ts:215-235 | what is bound around, hoisted and bound inside is what the language binds, but for class expression names, catch variables and `arguments` |
| `ScopeLanguage.NamesOccur` | scripts/test262-linked-harness-inventory.ts:85-93 | a binding pattern binds exactly the names occurring in it at any depth |
| `ScopeLanguage.LexicalIsLetAndLetOut` | scripts/test262-linked-harness-inventory.ts:214-239 | the scan's lexical names of a scope are the language's and those let out of class expressions, loop heads, case blocks and the like |
| `ScopeLanguage.HoistedIsVarAndHoistedOut` | scripts/test262-linked-harness-inventory.ts:229-235 | the names the scan hoists are the language's and those of catch variables, static blocks and function bodies |
| `ScopeLanguage.FoundExactly` | scripts/test262-linked-harness-inventory.ts:250-268 | for every file the scan finds a name iff it has a free use that no scope reaching too far covers, or strays: is mentioned in the open as no reference or under `arguments` or an import |
| `ScopeLanguage.OpenIsFree` | scripts/test262-linked-harness-inventory.ts:250-268 | a use in the open is found by the scan and free in the language |
| `ScopeExactness.ScanIsExactIff` | scripts/test262-linked-harness-inventory.ts:169-268 | against the language's free names, defined without the scan's tests: the scan is right about a candidate iff, when it strays, it is also free, and when it does not stray but is free, it is used in the open |
| `ScopeExactness.ScanIsExactWithoutThem` | scripts/test262-linked-harness-inventory.ts:169-268 | in particular it is right about a name for which no scope reaches too far and which does not stray |
| `ScopeExactness.MissedAfterCatch` | scripts/test262-linked-harness-inventory.ts:229-235 | a free use after a catch clause with that variable is missed |
| `ScopeExactness.MissedAfterClassExpression` | scripts/test262-linked-harness-inventory.ts:225 | a free use after a class expression of that name is missed |
| `ScopeExactness.MissedAfterLoopOrSwitch` | scripts/test262-linked-harness-inventory.ts:190-192 | a free use after a loop head or case block that declares the name is missed |
| `ScopeExactness.MissedAfterStaticBlock` | scripts/test262-linked-harness-inventory.ts:206-212 | a free use after a static block with a `var` of that name is missed |
| `ScopeExactness.MissedInParameter` | scripts/test262-linked-harness-inventory.ts:206-235 | a free use in a parameter's default is missed if the body has a `var` of that name |
| `ScopeExactness.MissedInComputedKey` | scripts/test262-linked-harness-inventory.ts:219-228 | a free use in a computed key is missed if the method has a parameter of that name |
| `ScopeExactness.MisreportedAccessor` | scripts/test262-linked-harness-inventory.ts:169-188 | the name of an accessor is reported |
| `ScopeExactness.MisreportedPropertyName` | scripts/test262-linked-harness-inventory.ts:169-188 | the property name in a binding pattern is reported |
| `ScopeExactness.MisreportedExport` | scripts/test262-linked-harness-inventory.ts:169-188 | the outer name of a renamed export is reported |
| `ScopeExactness.MisreportedBareName` | scripts/test262-linked-harness-inventory.ts:169-188 | the name in `new.target` or `import.meta` is reported |
| `ScopeExactness.MisreportedArguments` | scripts/test262-linked-harness-inventory.ts:226-228 | `arguments` in a function is reported |
| `ScopeExactness.MisreportedImport` | scripts/test262-linked-harness-inventory.ts:214-239 | an imported name is reported |
| `HarnessScan.BindingNames` | scripts/test262-linked-harness-inventory.ts:85-93 | the names of a binding pattern, all of them |
| `HarnessScan.Scan.AddBinding` | scripts/test262-linked-harness-inventory.ts:194-199 | adds the pattern's names to the scope, if there are both |
| `HarnessScan.Scan.EnterNode` | scripts/test262-linked-harness-inventory.ts:215-235 | what happens to the stack and the scopes before a node's children |
| `HarnessScan.Scan.VisitDeclarations` | scripts/test262-linked-harness-inventory.ts:214-239 | the recursive visit in place is the first pass |
| `HarnessScan.Scan.VisitReferences` | scripts/test262-linked-harness-inventory.ts:256-265 | the recursive visit in place is the second pass and restores the stack |
| `HarnessScan.SortNames` | scripts/test262-linked-harness-inventory.ts:267 | whatever the order of the set, the ascending list of its names, each once |
| `HarnessScan.AtMostMeans` | scripts/test262-linked-harness-inventory.ts:267 | the order is by the first differing character, prefixes first |
| `HarnessScan.ConsumedHarnessSymbols` | scripts/test262-linked-harness-inventory.ts:250-268 | the names returned are exactly the declared symbols that are free in the file by the scan's rules, ascending |
| `Ordered.AscendingIsUnique` | scripts/test262-canary-diff.ts:252-273 | a list in strictly ascending key order is determined by its elements |
| `Ordered.SortMeans` | scripts/test262-canary-diff.ts:252-273 | sorting by distinct keys gives the ascending list of the same elements |
| `CanaryManifest.ObservationsAddUp` | scripts/test262-canary-diff.ts:274-282 | observations added up path by path equal the canaries' own counts added up canary by canary |
| `CanaryManifest.SeenMeans` | scripts/test262-canary-diff.ts:259-269 | a path has exactly one observation for each canary it changed in, in run order |
| `CanaryManifest.FullMeansUnstableInAll` | scripts/test262-canary-diff.ts:283 | an entry has as many observations as there are canaries iff its path changed in all of them |
| `CanaryManifest.EntriesMean` | scripts/test262-canary-diff.ts:271-273 | entries are in path order, one for every path that changed in any canary |
| `CanaryManifest.CountsAgree` | scripts/test262-canary-diff.ts:274-303 | the reduced counts are the sums of the canaries' counts, the size of the union, and the number of paths unstable in every canary |
| `CanaryManifest.KindMeans` | scripts/test262-canary-diff.ts:122-131 | a change is a flip iff exactly one of the two statuses is "pass" |
| `CanaryManifest.ManifestIsOrdered` | scripts/test262-canary-diff.ts:251-273 | canaries by rising run id, entries by rising path, observations by rising run id |
| `CanaryValidator.DecodeEncode` | scripts/test262-canary-diff.ts:285-304 | the canaries can be read back from their manifest: nothing is lost |
| `CanaryValidator.EncodeDecode` | scripts/diff-test262.ts:114-237 | an accepted manifest is the manifest of the canaries read from it, and these are admissible |
| `CanaryValidator.AcceptsExactlyEncodings` | scripts/diff-test262.ts:114-237 | the validator accepts exactly the manifests of admissible lists of canaries |
| `CanaryValidator.AcceptedIffAdmissible` | scripts/test262-canary-diff.ts:305 | for canaries in run order the written manifest is accepted iff they are admissible |
| `CanaryDiff.Classify` | scripts/test262-canary-diff.ts:89-132 | every path of either run is counted in exactly one of match, flip, noise and missing, in terms of the statuses; the lists are complete; nothing is missing iff both runs cover the same paths |
| `CanaryDiff.KindsAre` | scripts/test262-canary-diff.ts:122-131 | flips and noise as sets of paths, in terms of the statuses |
| `CanaryCheck.CheckProvenances` | scripts/diff-test262.ts:128-161 | accepts exactly valid canaries in rising run order with distinct artifacts |
| `CanaryValidator.ShaMeans` | scripts/diff-test262.ts:138 | forty characters, each one of the sixteen lowercase hexadecimal digits |
| `CanaryCheck.CheckObservations` | scripts/diff-test262.ts:182-211 | accepts exactly valid observations in rising run order, counting them per kind and per canary |
| `CanaryCheck.CheckEntries` | scripts/diff-test262.ts:163-215 | accepts exactly valid entries in path order, with their totals and the number of entries seen in all canaries |
| `CanaryCheck.Validate` | scripts/diff-test262.ts:114-237 | the loops decide acceptance |
| `CanaryExtend.PushedAndSorted` | scripts/test262-canary-diff.ts:259-269 | pushing an observation and sorting gives what is seen of the path with the canary added |
| `CanaryExtend.ProvenancesPushedAndSorted` | scripts/test262-canary-diff.ts:251-252 | pushing a canary and sorting gives the provenance of the canaries with it added |
| `CanaryExtend.LoadEntries` | scripts/test262-canary-diff.ts:231-242 | the map built from an existing manifest holds what is seen of every path |
| `CanaryExtend.PushObservations` | scripts/test262-canary-diff.ts:259-269 | after the loop the map holds what is seen of every path with the canary added |
| `CanaryExtend.ListEntries` | scripts/test262-canary-diff.ts:271-273 | in whatever order the map is read, the sorted entries are the specified ones |
| `CanaryExtend.Rebuild` | scripts/test262-canary-diff.ts:201-304 | the manifest written is that of the recorded canaries and the new one |
| `CanaryExtend.Extend` | scripts/test262-canary-diff.ts:176-306 | a manifest is written iff the existing one is valid, the runs are complete, the provenance is valid and neither run nor artifact is recorded yet; it is then the manifest with the canary added |
| `CanaryExtend.FoldMeans` | scripts/test262-canary-diff.ts:176-306 | recording a list of canaries succeeds iff they are complete, valid and pairwise different, and gives the manifest of them in run order |
| `CanaryExtend.OrderDoesNotMatter` | scripts/test262-canary-diff.ts:176-306 | recording the same canaries in any other order is refused or gives the same manifest, alike |
| `EditionRatchet.TallyRows` | scripts/test262-edition-ratchet.ts:153-171 | every edition with rows, and no other, gets the number of its rows in each class and its passing files |
| `EditionRatchet.ClassesPartition` | scripts/test262-edition-ratchet.ts:162-168 | an edition's classes add up to its total |
| `EditionRatchet.Update` | scripts/test262-edition-ratchet.ts:223-312 | the baseline is rewritten iff the targets agree, every edition is covered and none loses passes, and then holds the row counts of every edition, carried-over flags, and set flags for new editions; otherwise it is left alone |
| `EditionRatchet.NewBaselineIsWritten` | scripts/test262-edition-ratchet.ts:444-466 | a written baseline has every edition with rows and no other, with the row counts of each class, carried-over flag and reason, and a set flag without a reason where there was no entry |
| `EditionRatchet.ClassOfMeans` | scripts/test262-edition-ratchet.ts:163-168 | the classes in terms of the status read |
| `EditionRatchet.FloorNeverFalls` | scripts/test262-edition-ratchet.ts:290-312 | over any sequence of unforced updates an edition with a positive floor stays, its pass and total never fall, its flag and reason persist |
| `EditionRatchet.WrittenTotalsArePositive` | scripts/test262-edition-ratchet.ts:444-466 | every entry the program writes has a positive total that is the sum of its classes |
| `EditionRatchet.SafeIffPositive` | scripts/test262-edition-ratchet.ts:254-312 | an entry is safe from leaving in every baseline and update iff its total or its pass count is positive |
| `EditionGate.CheckCounts` | scripts/test262-edition-ratchet.ts:314-331 | lists exactly the covered ratcheted editions that lost passes, and throws iff a covered edition has no rows |
| `EditionGate.CheckTests` | scripts/test262-edition-ratchet.ts:333-345 | lists exactly the files of ratcheted editions that went from pass to another status |
| `EditionGate.Check` | scripts/test262-edition-ratchet.ts:223-372 | the verdict: refused, thrown, regressed or clean |
| `EditionGate.CountIsSetSize` | scripts/test262-edition-ratchet.ts:153-171 | the pass count is at least the number of passing files, and that number if no file passes twice |
| `EditionGate.CleanTestsMeanCleanCounts` | scripts/test262-edition-ratchet.ts:314-345 | if the earlier run lists each file of an edition once and this run lists all of them, a clean per-test check means the edition is covered and, if ratcheted, has lost no passes |
| `EditionGate.TestsSettleCountsIff` | scripts/test262-edition-ratchet.ts:254-345 | for given lists of files and flags: a clean per-test check means a clean count check, whatever the statuses, iff the earlier run lists every file of each covered ratcheted edition once and this run lists it |
| `EditionGate.ChecksCanDisagree` | scripts/test262-edition-ratchet.ts:314-345 | for every other pair of lists there are statuses for which the tests are clean and the counts fall |
| `EditionGate.CleanRunCanBeBanked` | scripts/test262-edition-ratchet.ts:290-345 | if that holds of every edition and all are ratcheted, a clean run can be banked |
| `EditionGate.CleanCountsHideABrokenTest` | scripts/test262-edition-ratchet.ts:333-345 | the converse fails: one test broken, another fixed |
| `EditionGate.DuplicateRowsSeparateTheChecks` | scripts/test262-edition-ratchet.ts:153-345 | a file listed twice in the earlier run: the per-test check is clean, the count check fails |
| `EditionClassify.ClassifyEdition` | scripts/generate-editions.ts:497-571 | the edition is given by the explicit ids, else is the latest year of any listed feature or the draft, else is that of the first path rule, else the fallback |
| `EditionClassify.EditionIsUnique` | scripts/generate-editions.ts:497-571 | that determines the edition |
| `EditionClassify.EditionIsListed` | scripts/generate-editions.ts:362-571 | it is in EDITION_ORDER, never Proposals, and a year if features are listed |
| `EditionClassify.IncludesMeans` | scripts/generate-editions.ts:520-541 | a path rule applies iff its part occurs in the path |
| `EditionClassify.RuleEditions` | scripts/generate-editions.ts:521-541 | which paths are old and which built-ins came later |
| `EditionClassify.ResolveMeans` | scripts/generate-editions.ts:579-773 | under which heading a row is published, in terms of its status, the mode and the leak |
| `EditionClassify.RankMeans` | scripts/generate-editions.ts:883-892 | the precedence is compile errors, failures, timeouts and crashes, passes, skips, then anything else |
| `EditionClassify.Dedup` | scripts/generate-editions.ts:883-912 | for each file the last of its worst rows is kept, and kept and dropped rows add up |
| `EditionClassify.OrderFreeIffWorstAgree` | scripts/generate-editions.ts:877-912 | how a file is counted is independent of row order iff its worst rows are counted alike |
| `EditionClassify.HostLaneIsStable` | scripts/generate-editions.ts:877-912 | it is, without the host-free rule, if the rows of the file have known statuses and one scope |
| `EditionClassify.HostFreeLaneDependsOnOrder` | scripts/generate-editions.ts:768-773 | it is not in host-free mode for a clean and a leaking pass |
| `EditionBuckets.PartOfEdition` | scripts/generate-editions.ts:962-1039 | every slice and every row is bounded by its edition, status by status |
| `EditionBuckets.TotalsAddUp` | scripts/generate-editions.ts:1097-1100 | when every edition is listed once the totals add up to the number processed |
| `EditionBuckets.AddToSlices` | scripts/generate-editions.ts:1016-1027 | a test is counted once in the slice of each of its tags, except tags that name an inherited property |
| `EditionBuckets.ProtoTagHasNoSlice` | scripts/generate-editions.ts:1016-1027 | a test tagged `__proto__` is counted and carries the tag, yet there is no slice for it |
| `EditionBuckets.Bucket` | scripts/generate-editions.ts:962-1039 | every bucket and slice holds the numbers of the rows it stands for, heading by heading, and the tagged tests and the classified count are exact |
| `EditionBuckets.CountsAreNumbers` | scripts/generate-editions.ts:962-1039 | every population's counts are the numbers of rows with a file and a status that belong to it and carry the statuses of each heading |
| `EditionBuckets.CheckTotals` | scripts/generate-editions.ts:1097-1100 | for any tables, throws iff the published totals do not add up to the processed count |
| `EditionBuckets.CheckSlices` | scripts/generate-editions.ts:1107-1129 | for any tables, throws iff a published slice exceeds its edition or is not full where the edition is |
| `EditionBuckets.ChecksNeverFail` | scripts/generate-editions.ts:1097-1129 | on the tables the loop computes neither check ever fails |
| `EditionBuckets.FeatureRows` | scripts/generate-editions.ts:711-750 | each row counts the tests of its edition carrying any of its tags, each once; headline-only rows are empty |
| `EditionBuckets.RowsReconcile` | scripts/generate-editions.ts:711-750 | a row is bounded by its edition's pass and total, is full if the edition is, and is empty if the edition has no bucket |
| `EditionBuckets.RowsPublish` | scripts/generate-editions.ts:711-750 | a landing-page row holds the numbers of the rows of its year listing any of its tags; others are empty |
| `EditionBuckets.Generate` | scripts/generate-editions.ts:883-1129 | for every list of rows no check throws and the tables hold, heading by heading, the numbers of the one row kept per file |

## Left out

- Real processes, IPC, signals and the clock: they are events of the environment. Assumed of it: a process announces
  itself at most once, replies only with ids it was sent, and is not heard once its listeners are removed.
- Handlers that run inside one another: `kill` and `send` are taken not to deliver an event synchronously.
- Liveness of the pool: a worker that dies before it is ready is not replaced and shutdown leaves waiting jobs unsettled.
- Job payloads, labels, base64 decoding and the exact wording of errors in the pool.
- The SIMD functions, `emitBinary`, the IR and the code generator: only the instruction lists written out in the
  benchmark are modelled, so the interpreter has no `call`.
- Arrays that do not lie wholly in memory: the emitted load or store traps at the first word outside.
- JavaScript numbers beyond 2^53 and, in the benchmarks, negative seeds.
- The fixed input patterns of the zlib benchmarks: the kernels are proved for every byte sequence.
- Names with characters outside the Basic Multilingual Plane, which `sort` orders by their surrogates.
- Annex B of ECMA-262 (functions in blocks hoisted as `var` in sloppy mode), `with`, direct `eval` and decorators in the
  language's scoping.
- Parsing: TypeScript syntax trees, YAML frontmatter and JSON lines enter as values.
- Dynamic lookups through `globalThis` or strings, which the scan leaves to run time.
- The order of `localeCompare` on paths: a path is its rank, so distinct paths are taken to compare as different.
- Constant fields of the manifest (schema version, lane, policies, artifact name, pool size) and `loadResults`.
- The `--force` and `--from-editions` paths of the ratchet, its stamps and notes, and the eval-engine note.
- Per-category buckets, the per-file index, rows scored by path, and percentages in `generate-editions.ts`.
- EditionClassify.Dedup: a record without a file, which the source keeps under an invented key and then ignores, is
  merged with other such records.
- EditionBuckets.AddToSlices: what a counter written through an inherited property does to later lookups of tags named
  like a status.
- Statuses named like an inherited object property, whose rank in the deduplication is not a number.
- Printed reports, command lines, files written, Markdown and HTML.
