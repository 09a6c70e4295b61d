# Verified core of LoongCollector

A Dafny model of the parts of LoongCollector where correctness is hardest to see: the Go plugin runner and its
shutdown, the spill store, the single-producer ring and its semaphore version, the thread pool, the LRU cache, the
in-process counter of a C++ pipeline and the pipeline manager driven by config diffs, bucketed hash keys, MD5 padding,
Base64, the string splitters, the template parser, the JSON compactor and checker, and the checkpoint clean-up.

Code that runs in several threads is modelled as a state machine whose steps are the atomic actions of the threads; a
run is any sequence of enabled steps, so a claim about every run is a claim about every interleaving. What plugins,
flushers and builds decide is an argument of a step. Objects updated in place are classes whose methods are proved
against functions of their contents, and loops are methods proved against definitions that do not follow the loop.

| files | what they hold |
|---|---|
| `PluginRunner`, `PluginRunnerRuns`, `PluginRunnerDrain` | stages of the Go runner, conservation of logs, end of Stop |
| `FlushOutStore` | the spill store with its shared backing array, hand-over to a new runner |
| `RingBuffer`, `SemaphoreRing` | the ring under every interleaving of loads and stores, its blocking version |
| `ThreadPool` | workers, Add and Stop |
| `LruCache`, `LruCacheHistory` | map and list in step, size bound, recency and eviction over whole histories |
| `PipelineStop` | processor threads against Stop, with the 16-bit counter |
| `PipelineManager`, `PipelineManagerRuns`, `PipelineManagerLog` | UpdatePipelines over any sequence of diffs, and what one diff does about each name |
| `HashKey`, `Md5`, `Base64` | bit-level arithmetic |
| `Search`, `StringTools`, `EnvPlaceholders`, `FormattedString`, `JsonUtil` | scanners and printers |
| `CheckpointManager` | clean-up rounds |
| `Sequences`, `Sums`, `Modular` | concatenation, sums over sequences, division and remainder |

Results a maintainer may want to know:

- `PipelineStop.EnoughThreadsBreakStop`: the 16-bit counter makes Stop unsafe exactly from 65536 processor threads on.
- `PipelineManagerRuns.FileRestartsShielded`: a pipeline with a file input is restarted outside pause and resume
  exactly when the change was not detected and a modified config that builds brings a file input, which happens when
  that input is not the first one; `PipelineManagerRuns.FileInputsServed`: before the file server has been started,
  the same changes leave a running file pipeline without any file server.
- `RingBuffer.ItemNumberOutOfRange`: `mItemNumber` can read as the largest size_t, or one more than the capacity,
  and exactly when.
- `Md5.RightExactlyOnLittleEndian`: on a big-endian machine the digest of no message is right for every compression
  function, because the hash words are copied in the machine's order; `Md5.BigEndianBlocks`: the blocks fed there are
  those of RFC 1321 exactly for lengths whose eight bytes are a palindrome; `Md5.CounterNeverReachesEnd`: from 2^32
  bytes on the 32-bit loop counter never reaches its bound.
- `FlushOutStores.TakeOverTwice`, `FlushOutStores.AddAfterSharing`: what the shared backing array does to stores used
  again after Merge, and for which batches it does nothing.
- `LruCache.Cache.Emplace`: emplace of a stored key breaks the agreement of map and list, whatever the prune of that
  call does; `LruCache.AgreeBySize`, `LruCache.AgreementReturns`: they agree again exactly when their sizes do, which a
  later prune can bring about.
- `FormattedStrings.FailedInitTruncates`: after Init has failed behind a good placeholder, Format still works, on a
  truncated template.
- `ThreadPool.TasksThatRun`: which of the tasks accepted by Add are dropped by Stop, from the state Stop finds.
- `CheckpointManager.ConfigKeepsItsKeys`: when checkpoints of a loaded config are taken for orphans: its name is empty or
  contains `^` and the part before the first one is not itself the name of a loaded config.

## Model

| member | source | states |
|---|---|---|
| PluginRunner.InitialInvariant | pluginmanager/plugin_runner_v1.go:50-65 | a runner whose flush channel holds what was taken over satisfies the protocol invariant |
| PluginRunner.FanoutOwesEachAggregator | pluginmanager/plugin_runner_v1.go:258-293 | the processor loop owes each processed log with contents to every aggregator, once per occurrence, and nothing else |
| PluginRunner.InputKeepsInvariant | pluginmanager/plugin_runner_v1.go:199-223 | sending into LogsChan keeps order, stage order and balance |
| PluginRunner.ProcessorKeepsBalance | pluginmanager/plugin_runner_v1.go:241-295 | taking, adding, failed adds and quick flushes lose and duplicate no log |
| PluginRunner.ProcessorKeepsInvariant | pluginmanager/plugin_runner_v1.go:241-295 | every processor step keeps the whole invariant; it returns only after the inputs with LogsChan empty |
| PluginRunner.AggregatorKeepsBalance | pluginmanager/plugin_wrapper_aggregator_v1.go:59-108 | flushing an aggregator and sending its groups lose and duplicate no log |
| PluginRunner.AggregatorKeepsInvariant | pluginmanager/plugin_wrapper_aggregator_v1.go:90-108 | every aggregator step keeps the whole invariant; it returns only after a final flush |
| PluginRunner.FlusherKeepsOrder | pluginmanager/plugin_runner_v1.go:310-374 | groups are settled in the order they entered LogGroupsChan, and what a batch still lacks is in the channel |
| PluginRunner.FlusherKeepsInvariant | pluginmanager/plugin_runner_v1.go:310-374 | every flusher step keeps the whole invariant |
| PluginRunner.StopKeepsInvariant | pluginmanager/plugin_runner_v1.go:376-424 | every step of Stop keeps the whole invariant |
| PluginRunner.StepKeepsInvariant | pluginmanager/plugin_runner_v1.go:241-424 | one step of any goroutine keeps the invariant |
| PluginRunnerRuns.RunKeepsInvariant | pluginmanager/plugin_runner_v1.go:241-424 | every run keeps the invariant |
| PluginRunnerRuns.EveryLogInOnePlace | pluginmanager/plugin_runner_v1.go:241-374 | in every run the logs collected are, in order, those taken by the processor, those in LogsChan and those still with the inputs, there is one list of outputs, possibly empty, for each log taken, and for every aggregator each log with contents that the processors put out is in exactly one place: still to be added, in the aggregator, in its goroutine's hand, in LogGroupsChan, in the flusher's batch, handed to Flush, or in FlushOutStore |
| PluginRunnerRuns.PassedLogInOnePlace | pluginmanager/plugin_runner_v1.go:241-374 | with processors that pass logs through, every log with contents that was collected is, for every aggregator, in exactly one place from the inputs to the flushers |
| PluginRunnerRuns.RunRecords | pluginmanager/plugin_runner_v1.go:241-295 | the histories used in these claims are what the events of the run say: the logs collected and the outputs of each processor call |
| PluginRunnerRuns.FillNeverBlocks | pluginmanager/plugin_runner_v1.go:325-330 | in every reachable state the receives that fill a batch find their group in the channel |
| PluginRunnerRuns.AddsInOrder | pluginmanager/plugin_runner_v1.go:258-293 | in every run the adds that succeeded and those still owed are, in order, those of every log with contents to every aggregator |
| PluginRunnerRuns.LoopSendsInOrder | pluginmanager/plugin_wrapper_aggregator_v1.go:59-108 | in every run an aggregator's goroutine sends exactly the groups with logs that Flush returned, in order |
| PluginRunnerRuns.OthersSend | pluginmanager/plugin_wrapper_aggregator_v1.go:59-108 | besides these goroutines only quick flushes send, each the group it was given |
| PluginRunnerRuns.FlagIsSet | pluginmanager/plugin_runner_v1.go:376-394 | in every run the flag is set exactly after Stop was called, and exit is the argument of that call |
| PluginRunnerRuns.WhereBatchesGo | pluginmanager/plugin_runner_v1.go:342-371 | over any run until Stop finishes: what is flushed are, in order, the batches in hand when all flushers were ready, and what is stored the batches in hand when one was not after the flag |
| PluginRunnerRuns.BatchesByReadiness | pluginmanager/plugin_runner_v1.go:342-371 | from the events: nothing is stored before the flag; with flushers never unready nothing is stored and everything settled was flushed, in order; with flushers never ready nothing is flushed before Stop finishes |
| PluginRunnerRuns.CountStartsBatch | pluginmanager/plugin_runner_v1.go:325-330 | counting fixes the batch: the group received and all that wait in the channel |
| PluginRunnerRuns.BatchIsAllThatWaited | pluginmanager/plugin_runner_v1.go:325-330 | whatever the other stages do meanwhile, that batch is what the flusher collects and holds, in order |
| PluginRunnerDrain.UpstreamMove | pluginmanager/plugin_runner_v1.go:376-424 | while the flusher waits on an empty channel, an upstream stage or Stop can move |
| PluginRunnerDrain.NoDeadlock | pluginmanager/plugin_runner_v1.go:376-424 | after the flush-out flag is set no reachable state before the end of Stop is stuck |
| PluginRunnerDrain.EveryMoveGoesDown | pluginmanager/plugin_runner_v1.go:376-424 | every step that changes anything after the flag lowers a lexicographic measure of queued work and live stages |
| PluginRunnerDrain.NoEndlessStop | pluginmanager/plugin_runner_v1.go:376-424 | no schedule keeps moving for ever after the flag |
| PluginRunnerDrain.StopReturns | pluginmanager/plugin_runner_v1.go:376-424 | from every reachable state after the flag some finite run lets Stop return |
| PluginRunnerDrain.NothingLeftBehind | pluginmanager/plugin_runner_v2.go:385-433 | when Stop has returned both channels and all aggregators are empty and every group sent was flushed or is in the store |
| PluginRunnerDrain.ExitEmptiesStore | pluginmanager/plugin_runner_v1.go:396-406 | for whole runs: the last step of Stop leaves the store empty if and only if it was empty or Stop was called with exit and every flusher reports ready within its polls; then every group and every log put out went to the flushers, and otherwise the store is as before |
| PluginRunnerDrain.StoppedRunLosesNothing | pluginmanager/plugin_runner_v1.go:376-424 | in a whole run that ends with Stop returned every collected log was taken, and for every aggregator each log with contents put out for them is flushed or in the store, as are all inherited and sent groups |
| FlushOutStores.FlushOutStore.Append | pluginmanager/flusher_out_store.go:30-32 | Go append: contents extended, in place exactly while capacity lasts, otherwise in a new array, the old elements untouched |
| FlushOutStores.FlushOutStore.Add | pluginmanager/flusher_out_store.go:30-32 | contents extended by the given groups in order |
| FlushOutStores.FlushOutStore.Reset | pluginmanager/flusher_out_store.go:50-52 | contents emptied, with a new backing array |
| FlushOutStores.FlushOutStore.Merge | pluginmanager/flusher_out_store.go:54-63 | contents of the other store appended; into an empty store its array is shared; merging with itself changes nothing |
| FlushOutStores.FlushOutStore.Write | pluginmanager/flusher_out_store.go:42-48 | sends all groups in order and nils their slots; blocks for ever exactly when they do not fit the channel |
| FlushOutStores.TakeOver | pluginmanager/plugin_runner_v1.go:50-65 | Merge into a fresh store and Init deliver exactly the old groups in order; v1 never blocks, v2 blocks exactly when they exceed the fixed size |
| FlushOutStores.TakeOverTwice | pluginmanager/flusher_out_store.go:54-63 | a second take-over from the same store delivers as many nils |
| FlushOutStores.AddAfterSharing | pluginmanager/flusher_out_store.go:54-63 | adding a batch to each store after Merge writes the second batch over the beginning of the first one if and only if both batches fit the room left in the shared array; otherwise both are kept |
| FlushOutStores.AddToBoth | pluginmanager/flusher_out_store.go:30-32 | the same for any two stores that share an array |
| FlushOutStores.FlushOut | pluginmanager/plugin_runner_helper.go:79-95 | succeeds exactly when every flusher is ready within its polls; each flusher gets the whole store, which is reset only on success and otherwise unchanged |
| RingBuffer.CircularBuffer.TryPushItem | core/common/CircularBuffer.h:46-68 | refuses exactly when N items are stored, otherwise appends |
| RingBuffer.CircularBuffer.TryPopItem | core/common/CircularBuffer.h:79-100 | refuses exactly when nothing is stored, otherwise removes and returns the oldest item |
| RingBuffer.WriteHitsFreeSlot | core/common/CircularBuffer.h:46-68 | between any two steps of the consumer, the slot a push writes holds no live item |
| RingBuffer.ProducerKeepsInv | core/common/CircularBuffer.h:46-68 | each load or store of a push keeps the ring invariant |
| RingBuffer.ConsumerKeepsInv | core/common/CircularBuffer.h:79-100 | each load or store of a pop keeps the ring invariant |
| RingBuffer.RingIsFifo | core/common/CircularBuffer.h:41-121 | in every interleaving what was popped is a prefix of what was pushed, at most N items are in between, and the counter is their number up to operations in flight |
| RingBuffer.PushedIsWhatWasGiven | core/common/CircularBuffer.h:46-68 | in every schedule the items pushed are, in order, those TryPushItem was called with in the calls that were published |
| RingBuffer.OnePush | core/common/CircularBuffer.h:46-68 | one call among any turns of the consumer publishes exactly its item, or is refused because N items were stored when it loaded the reader |
| RingBuffer.RefusalsWereTrue | core/common/CircularBuffer.h:46-100 | a push is refused if and only if the ring was full when the reader index was loaded, a pop if and only if it was empty when the writer index was loaded |
| RingBuffer.ItemNumberExact | core/common/CircularBuffer.h:46-121 | the counter is exact if and only if neither or both operations are between moving their index and counting |
| RingBuffer.ItemNumberOutOfRange | core/common/CircularBuffer.h:46-121 | the counter leaves 0..N in exactly two situations, one of which wraps below zero |
| RingBuffer.CounterCanWrap | core/common/CircularBuffer.h:46-121 | a concrete schedule in which the counter reads the largest size_t |
| RingBuffer.CounterCanExceed | core/common/CircularBuffer.h:46-121 | a concrete schedule in which the counter reads N + 1 |
| SemaphoreRing.TurnSound | core/common/CircularBuffer.h:123-165 | each step of a blocking push or pop keeps the credits balanced |
| SemaphoreRing.AssertionsNeverFail | core/common/CircularBuffer.h:137-160 | in every interleaving the credits balance at N, what comes out is a prefix of what went in, what went in is what PushItem was given, and neither assert after Wait fails |
| SemaphoreRing.NeverBothWaiting | core/common/Semaphore.h:23-41 | with N at least 1 the two threads are never both stuck in Wait, and a thread waits only for a real reason |
| HashKey.CountBitSize | core/common/RandomUtil.cpp:28-39 | the loop computes the bit size |
| HashKey.BitSizeBounds | core/common/RandomUtil.cpp:28-39 | the bit size is the least number of bits that holds the value, and at least one |
| HashKey.ValToHex | core/common/RandomUtil.cpp:41-47 | hexToVal undoes valToHex |
| HashKey.WriteDigits | core/common/RandomUtil.cpp:84-103 | the digits written are worth the low bits of the shifted index plus the kept low bits of the last digit; the rest of the base is untouched |
| HashKey.GenerateHashKey | core/common/RandomUtil.cpp:75-105 | the key's value is (index mod 2^b)·2^(4L-b) + value(base) mod 2^(4L-b), for every index |
| HashKey.BucketFromKey | core/common/RandomUtil.cpp:75-105 | for an index below bucketNum the leading bits of the key are the index, whatever the base |
| HashKey.BucketsOrdered | core/common/RandomUtil.cpp:75-105 | different buckets occupy disjoint key ranges in the order of their indices, for any two bases |
| HashKey.StringOrder | core/common/RandomUtil.cpp:41-47 | keys of one length are ordered as strings exactly as their values are |
| HashKey.KeysOrdered | core/common/RandomUtil.cpp:75-105 | whatever the bases, the keys of a bucket come before those of later buckets as strings |
| LruCache.Cache.Insert | core/common/LRUCache.h:118-130 | the key stands in front with its new value and the other entries keep their order, of which an absent key may have cut off the last by a prune; map and list stay in step if they were, and what happens when they were not is stated too |
| LruCache.Cache.Emplace | core/common/LRUCache.h:131-136 | a push and a prune in every state; from a state in which map and list agree, they agree after the call if and only if the key was absent, and then it is like Insert; otherwise the node in front is a second one of its key or has lost its map entry |
| LruCache.Cache.TryGetCopy | core/common/LRUCache.h:203-211 | returns the stored value and puts the key in front, the others keeping their order, or reports that it is absent and changes nothing |
| LruCache.Cache.Remove | core/common/LRUCache.h:170-179 | removes exactly the entry of the key, and reports whether there was one |
| LruCache.Cache.Clear | core/common/LRUCache.h:113-117 | empties map and list |
| LruCache.Cache.Prune | core/common/LRUCache.h:212-224 | pops from the back, erasing by key, until the map has maxSize keys, once it has reached maxSize + elasticity |
| LruCache.PruneInStep | core/common/LRUCache.h:212-224 | pruning a list in step with the map cuts it to maxSize entries and keeps them in step |
| LruCache.PopDownOrphaned | core/common/LRUCache.h:212-224 | the prune of an emplace of a stored key does not restore agreement: a whole prune under an orphaned node in front leaves it orphaned |
| LruCache.AgreeBySize | core/common/LRUCache.h:113-224 | in every state the operations reach, map and list agree if and only if they have the same size |
| LruCache.AgreementReturns | core/common/LRUCache.h:118-224 | a history in which emplace of a stored key breaks the agreement and the prune of a later insert restores it |
| LruCache.SizesAgree | core/common/LRUCache.h:103-224 | map and list in step have the same size |
| LruCache.ApplyKeepsSize | core/common/LRUCache.h:113-224 | one operation keeps keys distinct and the size bound |
| LruCache.SizeStaysBounded | core/common/LRUCache.h:113-224 | over every history keys stay distinct and the size at most maxSize + max(elasticity,1) - 1 when maxSize > 0 |
| LruCache.SurvivesRun | core/common/LRUCache.h:113-224 | an entry behind at most the keys of a set smaller than maxSize survives every history that touches only those keys and spares it |
| LruCache.RecentKeySurvives | core/common/LRUCache.h:113-224 | a key just used and not removed survives, with its last value, while fewer than maxSize other keys were touched |
| LruCacheHistory.MostRecentFirst | core/common/LRUCache.h:118-147 | over every history from the empty cache, of two stored keys the one used last stands first, and every value is the one inserted last for its key |
| LruCacheHistory.StoredTouch | core/common/LRUCache.h:203-211 | a stored key was last used when it was last found or stored: failed lookups do not count |
| LruCacheHistory.UsedLaterStays | core/common/LRUCache.h:212-224 | if a key is stored so is every key found or stored after it and not removed since: the least recently used is evicted first |
| LruCacheHistory.PruneMoment | core/common/LRUCache.h:212-224 | an insertion evicts exactly when it reaches maxSize + elasticity keys and more than maxSize, and then leaves maxSize |
| LruCacheHistory.NobodyEvicted | core/common/LRUCache.h:212-224 | over every history with fewer than maxSize + elasticity keys in play a stored key leaves only by being removed |
| PipelineStop.ZeroMeansNone | core/collection_pipeline/CollectionPipeline.h:53-63 | below 65536 threads the counter reads zero if and only if no popped item is unfinished |
| PipelineStop.WorkerStepKeepsInv | core/runner/ProcessorRunner.cpp:119-188 | popping, processing and subtracting keep the counter equal to the unfinished items |
| PipelineStop.ManagerStepKeepsInv | core/collection_pipeline/CollectionPipeline.cpp:500-541 | the steps of Stop, installing and removing keep the invariant |
| PipelineStop.StopSafeInEveryRun | core/collection_pipeline/CollectionPipeline.cpp:500-541 | below 65536 threads, in every interleaving and over any number of restarts, batches are flushed and flushers stopped only when no popped item is unfinished |
| PipelineStop.ManagerInOrder | core/collection_pipeline/CollectionPipeline.cpp:402-541 | in every run popping is disabled, no item is in process, batches are flushed and flushers stopped in this order before the next pipeline is installed, which is opened last; items are popped only while it is open |
| PipelineStop.EnoughThreadsBreakStop | core/collection_pipeline/CollectionPipeline.h:53-63 | from 65536 threads on there is a run in which Stop goes on with unfinished items |
| PipelineStop.WaitIsBounded | core/collection_pipeline/CollectionPipeline.cpp:668-686 | no interleaving lets Stop wait for more than three steps per thread |
| PipelineStop.StopDrains | core/collection_pipeline/CollectionPipeline.cpp:668-686 | once popping is disabled some run of the threads ends the wait, with all of them idle |
| PipelineManager.RemoveAllMap | core/collection_pipeline/CollectionPipelineManager.cpp:59-69 | removing takes exactly the named entries out of the map |
| PipelineManager.ModifyAllMap | core/collection_pipeline/CollectionPipelineManager.cpp:70-126 | modifying replaces exactly the entries whose config builds |
| PipelineManager.AddAllMap | core/collection_pipeline/CollectionPipelineManager.cpp:127-153 | adding enters exactly the configs that build |
| PipelineManager.UpdateMap | core/collection_pipeline/CollectionPipelineManager.cpp:43-180 | the map after an update, entry by entry; a failed build leaves the old pipeline in place |
| PipelineManager.AnyFileInput | core/collection_pipeline/CollectionPipelineManager.cpp:253-292 | finds a file input if and only if there is one |
| PipelineManager.Manager.CheckIfFileServerUpdated | core/collection_pipeline/CollectionPipelineManager.cpp:253-292 | true if and only if a removed, modified or added config concerns the file server as the code tells: all old inputs, but only the first new one |
| PipelineManager.Manager.RemoveListed | core/collection_pipeline/CollectionPipelineManager.cpp:59-69 | the first loop of an update, with its log of actions |
| PipelineManager.Manager.ModifyListed | core/collection_pipeline/CollectionPipelineManager.cpp:70-126 | the second loop, with its log of actions |
| PipelineManager.Manager.AddListed | core/collection_pipeline/CollectionPipelineManager.cpp:127-153 | the third loop, with its log of actions |
| PipelineManager.Manager.UpdatePipelines | core/collection_pipeline/CollectionPipelineManager.cpp:43-180 | the new map, flags and log of one update |
| PipelineManagerRuns.UpdateSound | core/collection_pipeline/CollectionPipelineManager.cpp:43-180 | one update keeps the running pipelines equal to the map's values, and at no moment in between do two of one name run |
| PipelineManagerRuns.RunningIsTheMap | core/collection_pipeline/CollectionPipelineManager.cpp:43-180 | the same over any sequence of well-formed diffs |
| PipelineManagerRuns.RunningIsTheMapFromStart | core/collection_pipeline/CollectionPipelineManager.cpp:43-180 | in particular from the start of the agent |
| PipelineManagerRuns.FileRestartsShielded | core/collection_pipeline/CollectionPipelineManager.cpp:43-180 | once the file server runs, file inputs are restarted only between its pause and resume if and only if the change was detected or no modified config that builds brings a file input |
| PipelineManagerRuns.FileInputsServed | core/collection_pipeline/CollectionPipelineManager.cpp:43-180 | an update leaves every pipeline with a file input a file server if and only if one was started before, the change is detected, or no modified config that builds brings a file input |
| PipelineManagerRuns.UnpausedBetweenUpdates | core/collection_pipeline/CollectionPipelineManager.cpp:43-180 | the file server is never left paused between updates |
| PipelineManagerRuns.LateFileInputIsMissed | core/collection_pipeline/CollectionPipelineManager.cpp:253-292 | a concrete diff whose file input comes second and goes undetected |
| PipelineManagerRuns.FileInputNotServed | core/collection_pipeline/CollectionPipelineManager.cpp:43-180 | a concrete diff after which a pipeline with a file input runs without any file server |
| PipelineManagerLog.RemovedName | core/collection_pipeline/CollectionPipelineManager.cpp:59-69 | all an update does about a removed name: stop its pipeline completely, delete its queue, report it deleted |
| PipelineManagerLog.ModifiedName | core/collection_pipeline/CollectionPipelineManager.cpp:70-126 | all it does about a modified name: when the config builds, stop the old pipeline, completely if and only if some input type is in one of the two configs alone, start the new one and report it applied; otherwise report it failed |
| PipelineManagerLog.AddedName | core/collection_pipeline/CollectionPipelineManager.cpp:127-153 | all it does about an added name: start the pipeline and report it applied, or report it failed |
| PipelineManagerLog.OtherName | core/collection_pipeline/CollectionPipelineManager.cpp:43-180 | it does nothing about any other name |
| PipelineManagerLog.WhoIsStopped | core/collection_pipeline/CollectionPipelineManager.cpp:59-126 | exactly which pipelines an update stops completely (removed, or replaced by a config that builds with other input types) and which not |
| PipelineManagerLog.ReportsInOrder | core/collection_pipeline/CollectionPipelineManager.cpp:59-153 | every name of the diff is reported once, the removed ones first, then the modified, then the added, each in the order given |
| PipelineManagerLog.NewActions | core/collection_pipeline/CollectionPipelineManager.cpp:55-168 | all that lies between pausing and resuming the file server, or before starting it, and when which of these happens |
| PipelineManagerLog.FileInputTypes | core/collection_pipeline/CollectionPipelineManager.cpp:253-292 | the inputs that concern the file server are those of type input_file and input_container_stdio |
| Md5.CopyBytesToBlock | core/common/HashUtil.cpp:86-92 | four bytes to a word, low-order byte first |
| Md5.TailIsPadding | core/common/HashUtil.cpp:207-230 | the last one or two blocks are what sections 3.1 and 3.2 of RFC 1321 append |
| Md5.FeedWhole | core/common/HashUtil.cpp:193-204 | the loop over whole blocks folds the compression function over them |
| Md5.FeedTail | core/common/HashUtil.cpp:183-298 | the in-place block buffer feeds exactly the tail blocks |
| Md5.DoMd5Little | core/common/HashUtil.cpp:183-237 | for every message under 2^32 bytes and every compression function, the sixteen bytes of the RFC 1321 digest |
| Md5.DoMd5Big | core/common/HashUtil.cpp:239-298 | the same with the length and the four hash words in the machine's byte order; the RFC 1321 digest when that is little-endian |
| Md5.DoMd5 | core/common/HashUtil.cpp:300-317 | the choice by the first byte of the integer 1 gives the RFC 1321 digest on little-endian machines |
| Md5.CounterNeverReachesEnd | core/common/HashUtil.cpp:194-204 | the 32-bit counter of the block loop reaches its end for messages under 2^32 bytes and never from there on |
| Md5.RecordInjective | core/common/HashUtil.cpp:183-298 | folds that record their blocks are equal only for equal inputs, so equal folds mean equal blocks |
| Md5.BigEndianBlocks | core/common/HashUtil.cpp:239-298 | on a big-endian machine the blocks are those of RFC 1321 if and only if the length bytes are a palindrome |
| Md5.BigEndianOneByte | core/common/HashUtil.cpp:239-298 | they are not for any message of one byte |
| Md5.BigEndianDigest | core/common/HashUtil.cpp:239-298 | for a message whose blocks are right, the digest on a big-endian machine is right if and only if every hash word reads the same in both directions |
| Md5.RightExactlyOnLittleEndian | core/common/HashUtil.cpp:300-317 | for every message, the digest is right for every compression function if and only if the machine is little-endian |
| Md5.WordOfLow4 | core/common/HashUtil.cpp:183-298 | the four bytes written for a word read back as it, low-order byte first |
| Md5.WordsOfLow8 | core/common/HashUtil.cpp:183-298 | the eight length bytes are the two words of the length, low word first |
| Md5.InitialBytes | core/common/HashUtil.cpp:183-298 | the initial value is that of section 3.3 of RFC 1321, byte by byte |
| ThreadPool.StepKeepsInvariant | core/common/ThreadPool.h:53-101 | one step of any worker, of Add or of Stop keeps order, accounting and wakeups |
| ThreadPool.StepAccounted | core/common/ThreadPool.h:84-101 | each popped task is in one worker's hand or was called once |
| ThreadPool.StepKeepsWakeups | core/common/ThreadPool.h:67-101 | while running, queued tasks are matched by workers that are awake, unless all are |
| ThreadPool.FirstInFirstOut | core/common/ThreadPool.h:67-101 | in every run popped tasks are a prefix of pushed tasks, each called at most once, and empty ones never |
| ThreadPool.PushedInOrderOfArrival | core/common/ThreadPool.h:67-76 | in every run tasks are queued in the order in which their calls of Add took the lock, each with its own task |
| ThreadPool.AcceptedTasksArrive | core/common/ThreadPool.h:67-76 | every task given to Add before Stop's critical section is queued once or still on its way to the lock, and no other one is |
| ThreadPool.CalledAsGiven | core/common/ThreadPool.h:67-101 | in every run each task is called at most as often as it was given to Add before Stop's critical section |
| ThreadPool.QueuedTaskHasWorker | core/common/ThreadPool.h:67-101 | while running at least min(queue size, threads) workers are awake and none has left, so no wakeup is lost |
| ThreadPool.NobodyWaitsAfterStop | core/common/ThreadPool.h:53-58 | after Stop's critical section no worker waits, in any continuation |
| ThreadPool.WorkerCanMove | core/common/ThreadPool.h:60-64 | after it every worker that has not left can take its next step |
| ThreadPool.StopReturns | core/common/ThreadPool.h:53-65 | after it the workers take at most three steps each and pop at most one task each |
| ThreadPool.JoinedPool | core/common/ThreadPool.h:53-65 | when all workers are joined the callable tasks run are exactly those popped, and the rest of the queue is dropped |
| ThreadPool.TasksThatRun | core/common/ThreadPool.h:53-101 | from the state Stop finds when it takes the lock, with no Add in flight: a task runs if and only if it was popped or is among as many queued ones as workers are between their loop test and the lock; an Add in flight can only raise that number |
| ThreadPool.NothingDropped | core/common/ThreadPool.h:53-101 | Stop drops no task if and only if no more tasks are queued than workers are on their way to the lock |
| ThreadPool.AcceptedTaskCanBeDropped | core/common/ThreadPool.h:53-73 | a run in which a task accepted by Add is dropped |
| Search.FindNone | core/common/StringTools.cpp:124-145 | find returns npos if and only if there is no occurrence |
| Search.FindIs | core/common/StringTools.cpp:124-145 | find returns a position if and only if it is the first occurrence |
| StringTools.JoinSplit | core/common/StringTools.h:230-266 | joining the plain fields with the delimiter gives back the string |
| StringTools.FieldsFree | core/common/StringTools.h:230-266 | no field contains the delimiter |
| StringTools.SplitCharacterised | core/common/StringTools.h:230-266 | the fields are the only list that joins to the string with leftmost delimiters |
| StringTools.SkipFrom | core/common/StringTools.h:268-282 | both skipping loops pass only empty fields and stop where no delimiter starts |
| StringTools.FieldAt | core/common/StringTools.h:244-265 | the field at a position and where the next one starts |
| StringTools.Splitter.FindNext | core/common/StringTools.h:230-266 | moves to the next field, or to the end exactly when none is left |
| StringTools.Splitter.SkipDelimiters | core/common/StringTools.h:268-282 | moves the position without changing the non-empty fields ahead |
| StringTools.Collect | core/common/StringTools.h:191-289 | iterating visits all fields, or in skip mode exactly the non-empty ones, in order |
| StringTools.StringSpliter | core/common/StringTools.cpp:124-137 | returns the non-empty fields in order |
| StringTools.ReplaceOnce | core/common/StringTools.cpp:139-145 | one replacement brings the search closer to the end, whatever dst contains, and does not change the final result |
| StringTools.ReplaceString | core/common/StringTools.cpp:139-145 | terminates and returns the fields between src joined with dst |
| FormattedStrings.PrintParse | core/common/FormattedString.cpp:139-178 | re-interleaving the parts gives the template up to the first wrong placeholder |
| FormattedStrings.ReachEnd | core/common/FormattedString.cpp:139-178 | the parse succeeds if and only if that is the whole template; otherwise an empty or unclosed placeholder follows |
| FormattedStrings.ParsePrint | core/common/FormattedString.cpp:139-178 | parsing a printed well-formed part list gives it back |
| FormattedStrings.ParseCharacterised | core/common/FormattedString.cpp:139-178 | a template parses into given parts if and only if they are well formed and print as it |
| FormattedStrings.OneMoreStatic | core/common/FormattedString.cpp:139-178 | one more static part than names, whether or not the parse succeeded |
| FormattedStrings.DistinctHolds | core/common/FormattedString.cpp:165-168 | the required keys are the names |
| FormattedStrings.DistinctInOrder | core/common/FormattedString.cpp:165-168 | each once, in the order of first occurrence |
| FormattedStrings.ScanParts | core/common/FormattedString.cpp:139-178 | the loop computes the parts and the required keys |
| FormattedStrings.FormattedString.Init | core/common/FormattedString.cpp:67-74 | the template is the format string with the environment expanded once; the object holds its parts and required keys; false exactly for a wrong placeholder |
| FormattedStrings.FindValue | core/common/FormattedString.cpp:92-131 | what a name means: a non-empty content of a log event, a non-empty tag, nothing for other names, or failure |
| FormattedStrings.FormattedString.Format | core/common/FormattedString.cpp:76-137 | the template when there are no names; otherwise succeeds if and only if every name has a meaning, and puts the meanings between the static parts; on failure the result is the text before the first name without one |
| FormattedStrings.FillIsSubstitution | core/common/FormattedString.cpp:76-137 | that is the template with each placeholder replaced in order |
| FormattedStrings.FormatSubstitutes | core/common/FormattedString.cpp:67-178 | Init followed by Format is substitution in the template |
| FormattedStrings.FailedInitTruncates | core/common/FormattedString.cpp:67-178 | after a failed Init there is still one more static part than names, and they stand for the template before the wrong placeholder, which is what Format then uses when there is a name |
| FormattedStrings.UnclosedAfterGood | core/common/FormattedString.cpp:139-178 | a template with an unclosed placeholder after a good one parses to the parts before it |
| FormattedStrings.TruncatedTemplate | core/common/FormattedString.cpp:139-178 | a concrete such template |
| FormattedStrings.FormatContent | core/common/FormattedString.cpp:67-137 | Init and Format of %{content.k}: the content k of a log, failure for other events and for a missing or empty content |
| FormattedStrings.FormatTag | core/common/FormattedString.cpp:67-137 | Init and Format of %{tag.k}: the tag k of the group, failure when it is missing or empty |
| EnvPlaceholders.ExpandEnvPlaceholders | core/common/FormattedString.cpp:29-64 | the loop replaces closed marks by the values of their names, missing ones by nothing, and leaves empty and unclosed marks |
| EnvPlaceholders.ExpandIdentity | core/common/FormattedString.cpp:29-64 | values that write the mark again give the text back, whatever it is |
| EnvPlaceholders.MarkIsReplaced | core/common/FormattedString.cpp:29-64 | a mark is replaced by the value of its name, which is not expanded again, and the text after it is expanded on its own |
| EnvPlaceholders.UnclosedText | core/common/FormattedString.cpp:29-64 | a mark that is not closed stays, with all that follows |
| EnvPlaceholders.PlainText | core/common/FormattedString.cpp:29-64 | text without a mark stays |
| EnvPlaceholders.OneVariable | core/common/FormattedString.cpp:29-64 | ${NAME} becomes the value of NAME when it is set and nothing when it is not |
| JsonUtil.CompactJson | core/common/JsonUtil.cpp:109-137 | drops exactly the blanks that are neither quoted nor escaped, also with a trailing lone backslash |
| JsonUtil.CompactIsCompact | core/common/JsonUtil.cpp:109-137 | the result has no such blank left |
| JsonUtil.CompactFixes | core/common/JsonUtil.cpp:109-137 | a text is unchanged if and only if it has none |
| JsonUtil.CompactIdempotent | core/common/JsonUtil.cpp:109-137 | compacting twice is compacting once |
| JsonUtil.CompactKeepsReading | core/common/JsonUtil.cpp:109-137 | quote and escape state and brace depth at the end are unchanged |
| JsonUtil.CompactKeepsProtected | core/common/JsonUtil.cpp:109-137 | quoted and escaped characters are unchanged |
| JsonUtil.CompactKeepsOthers | core/common/JsonUtil.cpp:109-137 | every character other than space, newline and tab is kept, in order |
| JsonUtil.CompactOfPlain | core/common/JsonUtil.cpp:109-137 | without quotes and backslashes exactly the spaces, newlines and tabs go |
| JsonUtil.IsValidJson | core/common/JsonUtil.cpp:69-107 | true if and only if an object or array opens after blanks and unquoted braces are balanced in every prefix |
| JsonUtil.ScanBraces | core/common/JsonUtil.cpp:81-106 | the brace-counting loop decides balance of all prefixes |
| JsonUtil.BalancedTail | core/common/JsonUtil.cpp:83-106 | balance of all prefixes can be decided a character at a time |
| JsonUtil.CompactKeepsValidity | core/common/JsonUtil.cpp:69-137 | the checker gives the same answer before and after compaction |
| Base64.Base64Encoding | core/common/EncodingUtil.cpp:23-66 | the read loop encodes groups of three bytes and pads the last one |
| Base64.Base64Encode | core/common/EncodingUtil.cpp:68-73 | the same with the standard alphabet and '=' |
| Base64.EncodedLength | core/common/EncodingUtil.cpp:68-73 | the length is 4·ceil(n/3) |
| Base64.PaddingAtTheEnd | core/common/EncodingUtil.cpp:23-73 | two = at the end when one byte is left over, one when two are, and none elsewhere |
| Base64.AlphabetMatches | core/common/EncodingUtil.cpp:68-73 | the alphabet is table 1 of RFC 4648 |
| Base64.DecodeEncode | core/common/EncodingUtil.cpp:68-73 | a decoder after section 4 of RFC 4648 inverts the encoding of every byte string |
| Base64.DecodeExactly | core/common/EncodingUtil.cpp:68-73 | a text decodes to a message if and only if it is its encoding |
| Base64.ReadsBack | core/common/ProcParser.cpp:152-159 | decimal text of a number reads back as it |
| Base64.GenerateExecId | core/common/ProcParser.cpp:152-159 | the encoding of hostname, ktime and pid joined by colons |
| Base64.ExecIdInjective | core/common/ProcParser.cpp:152-159 | equal ids mean equal hostname, ktime and pid, also when host names contain colons |
| Base64.ExecIdReadsBack | core/common/ProcParser.cpp:152-159 | decoding an id and cutting it at its last two colons gives the hostname, then ktime, then pid |
| CheckpointManager.SavedKeyMatches | pluginmanager/checkpoint_manager.go:148-163 | for every config name, a saved key matches if and only if the part of the name before its first '^' is not empty and loaded |
| CheckpointManager.ConfigKeepsItsKeys | pluginmanager/checkpoint_manager.go:148-163 | for every set of loaded configs, a loaded config keeps its checkpoints if and only if its name is not empty and, when it contains '^', the part before the first one is not empty and is loaded too |
| CheckpointManager.CaretInName | pluginmanager/checkpoint_manager.go:148-163 | two concrete sets of configs that show both cases |
| CheckpointManager.CheckPointManager.ScanKeys | pluginmanager/checkpoint_manager.go:170-182 | the first loop collects the unmatched keys visited before the break and forgets the counts of the matched ones |
| CheckpointManager.CheckPointManager.CleanKeys | pluginmanager/checkpoint_manager.go:188-195 | the second loop counts each collected key and deletes those past the threshold |
| CheckpointManager.CheckPointManager.Check | pluginmanager/checkpoint_manager.go:165-196 | one round, or nothing without a database, for any keys the iterator hands out before it ends or fails, any configs at the moment of each lookup and any failing deletions |
| CheckpointManager.RoundIsHistory | pluginmanager/checkpoint_manager.go:165-196 | an uninterrupted round is the history of one scan and the cleaning of each key it collected |
| CheckpointManager.RoundOnKey | pluginmanager/checkpoint_manager.go:165-196 | what a round does to each single key, visited or not |
| CheckpointManager.CountIsStreak | pluginmanager/checkpoint_manager.go:165-196 | over every history, with checkpoints saved and deleted also between the two loops, the count of a key is the number of scans that visited it unmatched since it was last visited matched, modulo threshold + 1, and one behind while the key is collected but not counted |
| CheckpointManager.CountBounded | pluginmanager/checkpoint_manager.go:188-195 | no count is ever above the threshold |
| CheckpointManager.DeletedAtThreshold | pluginmanager/checkpoint_manager.go:188-195 | cleaning takes a key out of the database if and only if it is the next collected one, the deletion succeeds and its visits complete a multiple of threshold + 1 |
| CheckpointManager.VisitBound | pluginmanager/checkpoint_manager.go:172-182 | a round meets at most max unmatched keys, or one, and visits everything when there are fewer |
| CheckpointManager.RoundProgress | pluginmanager/checkpoint_manager.go:165-196 | while an unmatched key is left a round lowers the visits still owed, and deletes no matched key |
| CheckpointManager.CleansUp | pluginmanager/checkpoint_manager.go:165-196 | with lookups fixed and no failures, enough rounds leave exactly the matched keys, despite the early break and in any iteration order |

## Left out

- Nil groups in the flusher loops, which the hand-over of a store used twice would bring there.
- Service inputs run in their own goroutine (pluginmanager/plugin_wrapper_service_v1.go:43-50); stopping an input is
  taken to end its production.
- An aggregator whose Add returns an error is taken to be unchanged and to fail only while the flush channel is full.
- The lookup of an unsent store by name, which is saved and searched under different names
  (pluginmanager/plugin_manager.go:205, pluginmanager/logstore_config.go:328); hand-over is stated from store to channel.
- Memory ordering: the barriers of the ring are taken to make its accesses sequentially consistent.
- `mItemNumber` is not set in the ring's constructor; it is taken to start at zero.
- Non-blocking calls on the semaphore ring mixed with blocking ones.
- Mutex and condition variable inside `Semaphore`; Wait and Post are atomic steps.
- Bit operations as such: shifts and masks are written as multiplication, division and remainder.
- Pipeline queues, priorities, input runners and one-time pipelines around Stop and UpdatePipelines.
- The 64 round steps of MD5, SHA and MurmurHash: the compression function is a parameter.
- Names of environment variables with an embedded NUL character, which getenv would cut.
- Empty delimiters and search strings in the splitters and ReplaceString.
- LRU locking, iteration and `getCopy` by exception; only the operations in the table.
- Stored checkpoint values; only the keys of the database are modelled. A scan reads one snapshot of it.
- Logging, alarms, metrics, clocks and sleeps everywhere.
- Config parsing, plugin creation, containers, host metadata and the concrete plugins.
