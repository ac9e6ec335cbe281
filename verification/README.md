# Gateway structures and protocols, modelled and proved

This project models the stateful core of the gateway's TypeScript library and of the blueprint
composer, and proves what they are for.

| files | what they model |
|---|---|
| `Basics` | what several of the models share |
| `Ranking`, `LayerGraph`, `LayerSearch`, `VectorIndex` | the in-memory HNSW vector index: best-first search of a layer, greedy descent, insertion with pruned back links |
| `SmallIndex` | runs of insertions: what an index holds after them, and the connected bottom layer of one in which nothing can be pruned |
| `Recency`, `MemoryCache` | the LRU+TTL cache: the recency list it stands for, and the hash map with the hand-written doubly linked list that implements it on the heap |
| `Expiry` | when the cache finds a key, over whole runs |
| `WritePipeline`, `WriteSafety`, `WriteProgress`, `WriteQueue` | the batching write queue and its write-ahead log: a state machine over single Redis commands, lost commands, crashes and recoveries, and the same code as objects |
| `WriteAcks` | the way from a returned append to the acknowledgement that takes the write off the log |
| `WriteDelivery` | queue and log end to end: what is left after a crash, a recovery, successful flushes and their acknowledgements |
| `RateLimiter` | the sliding-window limiter with its separately resetting burst allowance |
| `CircuitBreaker` | the three Lua scripts, the in-memory breaker that should be the same automaton, and the front end that switches between them |
| `OrderedTable`, `Composer` | the blueprint composer as left folds over insertion-ordered dictionaries |
| `Precedence` | which definition of a name a composition holds |
| `ScanFreshness`, `ScanCache` | the incremental scanner's two caches: how stale an answer can be, and agreement with a full scan |
| `ScanRefinement` | the scanner over many files refines the one-file model, file by file |

Objects whose methods update fields are classes. Their methods are proved against functions of the
old state, and the properties of whole runs are proved about those functions: `Recency.Apply` for the
cache, `WritePipeline.Next` for the queue and its log, `RateLimiter.CheckEntry` and `Cleaned`,
`CircuitBreaker.LuaStep` and `LocalStep`, `OrderedTable.Fold` for the composer, `ScanCache.ScanFiles`
and `ScanFreshness.Next` for the scanner. The current time, the random level of a new node, the
outcome of an operation and the failure of a connection are parameters.

## Where the code differs from what one would expect of it

- The limiter admits up to the per-minute limit plus *twice* the burst allowance in one minute
  (`LimiterBound`), and some run does so exactly when there is a per-minute allowance or no burst
  allowance (`BoundIsTight`); without a per-minute allowance the exact maximum is one less
  (`WindowMaximum`).
- Cleaning up the limiter can change a later verdict, exactly when there is no per-minute allowance
  but a burst allowance (`CleanupInvisible`): the removed entry held the record of the used burst.
- Recovery takes an entry that it could not *read* off the pending list, so the write is lost. A write
  whose append completed and that has not succeeded is pending exactly when this has not happened
  (`NoCompletedAppendIsLost`), and it happens in no run exactly when reads do not fail
  (`NothingLostWhenReadable`). The comment there speaks of entries whose data is missing, but a missing
  hash is read as an empty object, which is true in a condition, so such an entry is skipped and stays
  on the list.
- The Lua scripts and the in-memory breaker agree on all runs whose failure times are at least some
  bound exactly when the bound is positive (`AgreeExactly`): the script takes a last failure time of 0
  for none.
- The breaker's fallback is conservative while Redis stays ready (`FallbackIsConservative`). With
  outages it is so exactly when there is no recovery time, or the first failure opens a circuit and
  nobody resets one (`ConservativeExactly`): a success or a reset that Redis does not hear of makes
  the local breaker forget failures that Redis keeps.
- The 120 seconds of the scanner's overlay count from when an issue list was cached, not from when the
  file was looked at, and a failed stat reads as time 0 and accepts any row. What is served is as
  recent as 120 seconds and an age exactly when the age covers the time between stat and answer and no
  failed stat is answered from the database (`RecentExactly`).

## Model

| member | source | states |
|---|---|---|
| `VectorIndex.InMemoryHNSW.SearchLayer` | gateway/src/lib/vector-store.ts:175-227 | for any entry points it terminates with sorted hits, none only without a stored entry point; for distinct ones the result is the best `ef` of everything visited (never fewer than the entry points), everything visited is reachable in the layer, and every stored neighbour of a hit is a hit, or the result is full and the neighbour does not beat its worst hit |
| `VectorIndex.InMemoryHNSW.StartLists` | gateway/src/lib/vector-store.ts:181-194 | the stored entry points are visited, candidates and hits, both lists sorted, with repetitions if there are any |
| `VectorIndex.InMemoryHNSW.Expand` | gateway/src/lib/vector-store.ts:202-220 | after a node's turn all its neighbours are visited, and a turn that visits nothing new pushes nothing, which is why the search ends |
| `VectorIndex.InMemoryHNSW.Visit` | gateway/src/lib/vector-store.ts:204-219 | one neighbour: skipped when visited or missing, otherwise offered to both lists, keeping what the search relies on |
| `LayerGraph.ResultIsSettled` | gateway/src/lib/vector-store.ts:175-227 | read without the visited nodes: ranked hits of stored nodes, and a neighbour of a hit is itself a hit, or the result is full and the neighbour does not beat its worst hit |
| `LayerGraph.OfferKeepsRanked` | gateway/src/lib/vector-store.ts:213-219 | push, sort and shift keep the hit list the best `ef` of everything visited so far |
| `LayerSearch.VisitStored` | gateway/src/lib/vector-store.ts:209-219 | offering a newly met node keeps the search invariant: ranked hits, consistent candidates, every visited node reachable, every hit closed, open or waiting |
| `LayerSearch.BreakLeavesNoneWaiting` | gateway/src/lib/vector-store.ts:196-200 | when the search breaks off, no hit is still waiting among the candidates |
| `LayerSearch.FinishSearch` | gateway/src/lib/vector-store.ts:224-226 | the final sort turns the invariant into the promised result |
| `Ranking.SortAfterPush` | gateway/src/lib/vector-store.ts:214-218 | sorting after a push inserts the new hit behind its equals and moves nothing else |
| `Ranking.SortDescendingSorts` | gateway/src/lib/vector-store.ts:224-226 | the descending sort is a rearrangement and is sorted |
| `Ranking.BestIsUnique` | gateway/src/lib/vector-store.ts:224-256 | two best selections of the same size show the same scores, so ties are all that can differ |
| `LayerGraph.LargeEfFindsReachable` | gateway/src/lib/vector-store.ts:175-227 | with `ef` at least the number of nodes reachable from the entry point the hits are exactly these nodes, all ranked |
| `VectorIndex.GreedyStep` | gateway/src/lib/vector-store.ts:136-140 | a search of width 1 ends in a node of the layer that no neighbour beats and that is no worse than the start |
| `VectorIndex.InMemoryHNSW.Descend` | gateway/src/lib/vector-store.ts:136-140 | the descent makes one width-1 search in every layer from the top one down, each from the node the last one found, and ends in a local optimum |
| `VectorIndex.InMemoryHNSW.Search` | gateway/src/lib/vector-store.ts:232-257 | a search of the bottom layer, as `SearchLayer` promises it, from where the descent ends; its hits at or above the threshold are sliced, a negative `topK` dropping from the end, and are the best of all eligible visited nodes; all nodes reachable in the bottom layer are visited when the effective width is at least their number; nothing for an empty index |
| `VectorIndex.SearchIsBest` | gateway/src/lib/vector-store.ts:251-256 | filtering and slicing the layer's result gives such an answer |
| `VectorIndex.AnswerShowsBest` | gateway/src/lib/vector-store.ts:232-257 | an answer in plain terms: distinct visited nodes with their own similarities, none below the threshold, ranked, as many as the width and `topK` allow, and none left out that beats one shown |
| `VectorIndex.FilteredPrefixIsBest` | gateway/src/lib/vector-store.ts:252-256 | filtering a best selection by the threshold and slicing it is a best selection of the eligible nodes, with none missing |
| `VectorIndex.SearchAgreesWithScan` | gateway/src/lib/vector-store.ts:232-257 | a search whose width is at least the number of reachable nodes shows exactly the scores a brute-force scan of them shows |
| `VectorIndex.ScanIsBest` | gateway/src/lib/vector-store.ts:232-257 | the brute-force reference is itself the best selection of what it scans |
| `VectorIndex.InMemoryHNSW.Insert` | gateway/src/lib/vector-store.ts:113-173 | the graph stays well formed (stored neighbours of sufficient level, no self-loops, bounded degree, entry point of the highest level); the ids are the old ones and the new one, which has the given vector and, when it is new, the given level, and every other node keeps its own; a known id only changes its vector; a new one is linked layer by layer from the end of the descent, every other layer untouched |
| `VectorIndex.InsertStores` | gateway/src/lib/vector-store.ts:113-121 | after an insertion the node of the id holds the vector, with the given level if it is new, and all other vectors and levels are as before |
| `VectorIndex.DegreesInNumbers` | gateway/src/lib/vector-store.ts:142-167 | an insertion links the new node to the first hits of a search, at most 2M in layer 0 and M in the others, goes on from the very first, and prunes each of them to that number, keeping the closest |
| `VectorIndex.InMemoryHNSW.ConnectLayers` | gateway/src/lib/vector-store.ts:142-167 | every shared layer from the top one down is linked, each search starting at the best hit of the layer above |
| `VectorIndex.InMemoryHNSW.ConnectLayer` | gateway/src/lib/vector-store.ts:143-166 | one layer: the new node's links are the best hits of a search of the layer as it was, and the graph stays well formed |
| `VectorIndex.InMemoryHNSW.LinkAll` | gateway/src/lib/vector-store.ts:148-164 | the new node gets exactly the chosen links, each chosen node a pruned back link, and no other edge changes |
| `VectorIndex.InMemoryHNSW.LinkBack` | gateway/src/lib/vector-store.ts:150-164 | one neighbour's links are its old ones and the new node, pruned to the degree limit |
| `VectorIndex.InMemoryHNSW.Strongest` | gateway/src/lib/vector-store.ts:158-162 | pruning keeps the given number of links, none of which is beaten by a dropped one |
| `VectorIndex.LinkKeepsGraphOk` | gateway/src/lib/vector-store.ts:143-165 | linking one layer of the new node keeps the graph well formed |
| `VectorIndex.FoundInLayer` | gateway/src/lib/vector-store.ts:142-146 | what a search finds lives in the layer and is never the new node itself, since nothing links to it yet |
| `VectorIndex.VectorUpdateOk` | gateway/src/lib/vector-store.ts:113-117 | replacing a stored vector keeps the graph and the entry point well formed |
| `VectorIndex.InMemoryHNSW.Clear` | gateway/src/lib/vector-store.ts:275-279 | an empty, well-formed index |
| `SmallIndex.SmallIsConnected` | gateway/src/lib/vector-store.ts:113-173 | after any run of insertions and clearings, at any levels, that leaves at most 2M + 1 nodes, the edges of the bottom layer are symmetric and every node reaches every other |
| `SmallIndex.SmallSearchIsScan` | gateway/src/lib/vector-store.ts:232-257 | so a search of such an index at least as wide as it has nodes shows the scores of a scan of the whole index |
| `SmallIndex.HoldsInserted` | gateway/src/lib/vector-store.ts:113-121 | after any run an index holds exactly the ids inserted since it was last cleared, each with the vector last inserted under it |
| `SmallIndex.SmallSearchFindsInserted` | gateway/src/lib/vector-store.ts:232-257 | after any run every hit is an id inserted, with the similarity of its latest vector; a search at least as wide as a small index shows the best of everything inserted |
| `SmallIndex.InsertLinksBothWays` | gateway/src/lib/vector-store.ts:142-165 | in an index that small an insertion links the new node to at least one other, both ways, and removes no edge |
| `MemoryCache.MemoryCache.Get` | gateway/src/lib/cache.ts:86-113 | the value and the new recency list are those of the specification; hits, misses and expirations are counted |
| `MemoryCache.MemoryCache.Set` | gateway/src/lib/cache.ts:115-151 | a known key moves to the front with a fresh entry, a new one is put in front and only the least recently used keys beyond the limit are evicted |
| `MemoryCache.MemoryCache.EvictOverflow` | gateway/src/lib/cache.ts:140-150 | exactly the entries beyond the limit go, from the tail, each counted once |
| `MemoryCache.MemoryCache.Delete` | gateway/src/lib/cache.ts:153-159 | removes exactly the key and tells whether it was there |
| `MemoryCache.MemoryCache.Has` | gateway/src/lib/cache.ts:161-171 | tells whether an unexpired entry is there, leaving the recency order alone and dropping only an expired entry |
| `MemoryCache.MemoryCache.Clear` | gateway/src/lib/cache.ts:173-177 | an empty cache, its counters as they were |
| `MemoryCache.MemoryCache.PurgeExpired` | gateway/src/lib/cache.ts:199-213 | removes exactly the expired keys in whatever order the map is visited, keeps the others in order, and returns how many went |
| `MemoryCache.MemoryCache.AddToHead` | gateway/src/lib/cache.ts:230-242 | the node goes in front; `next` from the head and `prev` from the tail visit the same nodes |
| `MemoryCache.MemoryCache.RemoveNode` | gateway/src/lib/cache.ts:244-259 | exactly that node leaves the list, both directions stay inverse, and its own pointers are cleared |
| `MemoryCache.MemoryCache.MoveToHead` | gateway/src/lib/cache.ts:261-264 | the node moves to the front and the others keep their order |
| `MemoryCache.MemoryCache.Discard` | gateway/src/lib/cache.ts:97-98 | list and map lose exactly that key together |
| `Recency.LargerCacheIncludesSmaller` | gateway/src/lib/cache.ts:86-213 | fed the same operations at the same times, a smaller cache's list is always a subsequence of a larger one's with equal entries; the larger never misses where the smaller hits and counts at least as many hits |
| `Recency.InclusionStep` | gateway/src/lib/cache.ts:86-213 | every operation keeps the inclusion, and the larger cache's answer is no worse |
| `Recency.SetIncluded` | gateway/src/lib/cache.ts:135-150 | evicting from both lists keeps the inclusion and bounds the larger one's surplus by the difference of the limits |
| `Recency.ApplyKeepsShape` | gateway/src/lib/cache.ts:86-213 | every operation keeps keys distinct and the size within the limit |
| `Recency.ListIsOrderedByUse` | gateway/src/lib/cache.ts:86-150 | in every reachable state the list is ordered by last use, so what an insertion evicts is least recently used |
| `Recency.EntriesAreLastWrites` | gateway/src/lib/cache.ts:86-213 | in every reachable state each entry holds the last value and expiry written under its key |
| `Recency.PurgeOneMore` | gateway/src/lib/cache.ts:203-209 | visiting one more key removes its entry exactly when it has expired |
| `Recency.EvictedIsPrefix` | gateway/src/lib/cache.ts:141-150 | eviction keeps the most recently used entries up to the limit |
| `Expiry.GetExactly` | gateway/src/lib/cache.ts:86-132 | after any run a lookup answers only with the value of the last write of the key since its last deletion or clearing, only while that is alive (no lifetime, or written at most its lifetime ago), and always then if the limit leaves room for all keys written and the clock does not go back |
| `Expiry.HasExactly` | gateway/src/lib/cache.ts:161-171 | the same for `has` |
| `Expiry.PurgeExactly` | gateway/src/lib/cache.ts:199-213 | a purge keeps exactly the held keys whose last write is alive and counts the others |
| `Expiry.DeleteExactly` | gateway/src/lib/cache.ts:153-177 | a deletion removes exactly its key and tells whether it was held; a clearing leaves nothing |
| `Expiry.LookupsLeave` | gateway/src/lib/cache.ts:86-171 | `get` and `has` hit together; a hit of `has` changes nothing, one of `get` moves the key to the front, and a miss takes an expired entry out |
| `Expiry.HeldWasWritten` | gateway/src/lib/cache.ts:86-132 | every held entry is that of the last write of its key: value, time, expiry, and every lookup since counted |
| `Expiry.WithinLimit` | gateway/src/lib/cache.ts:140-150 | no run leaves more entries than the limit, and none with a limit of zero or less |
| `WriteSafety.RunKeepsLog` | gateway/src/lib/durable-write-log.ts:150-268 | every reachable state of queue, log and connection keeps the log invariant, with a crash, a lost connection or an enqueue between any two Redis commands |
| `WriteSafety.PendingAlwaysHasHash` | gateway/src/lib/durable-write-log.ts:150-196 | a listed id always has its entry hash, holding what was submitted |
| `WriteSafety.NoCompletedAppendIsLost` | gateway/src/lib/write-queue.ts:85-178 | after any run, a write whose append completed and that has not succeeded is pending if and only if no recovery took it off the list; only writes that a recovery could not read are taken off, and only succeeded writes are acknowledged |
| `WriteSafety.LostInOneStep` | gateway/src/lib/durable-write-log.ts:227-238 | the step in which a pending, unsucceeded write leaves the list is exactly the arrival of recovery's removal |
| `WriteSafety.NothingLostWhenReadable` | gateway/src/lib/durable-write-log.ts:205-268 | no run loses a write if and only if recoveries can read every entry they ask for |
| `WriteSafety.UnreadableEntryIsLost` | gateway/src/lib/durable-write-log.ts:227-238 | under every configuration a run that loses a write: recovery takes the unreadable entry off the list |
| `WriteProgress.ExhaustedStaysPending` | gateway/src/lib/write-queue.ts:153-167 | after any run with any crashes and recoveries: a write that used up its retries and that no recovery put back has not succeeded, and if its append completed it is pending exactly when no recovery took it off the list |
| `WriteProgress.FailuresLeaveLogAlone` | gateway/src/lib/write-queue.ts:153-167 | flushes whose operations all fail, last attempts included, send nothing to the log |
| `WriteSafety.RecoveryRequeuesPending` | gateway/src/lib/write-queue.ts:210-239 | after any run, a recovery without interruption puts back exactly the pending writes with a category and a handler, in list order, behind the queue, and leaves the log as it is |
| `WriteSafety.InterleavedRecovery` | gateway/src/lib/durable-write-log.ts:205-268 | interleaved with anything, a finishing recovery puts back every listed write that is still pending, has a handler and was not misread by this very recovery, behind the queue and in list order |
| `WriteProgress.RunKeepsQueue` | gateway/src/lib/write-queue.ts:85-247 | in every reachable state at most one flush runs, entries are conserved and retry counts are the failed attempts |
| `WriteProgress.QuiescentConservation` | gateway/src/lib/write-queue.ts:85-178 | between flushes, enqueued plus recovered equals flushed plus failed plus queued |
| `WriteProgress.CountersTell` | gateway/src/lib/write-queue.ts:85-178 | the counters: one more enqueued for each enqueue, flushed for each success, failed for each failed last attempt, recovered for each entry put back, and nothing else |
| `WriteProgress.FullBatchIsFlushed` | gateway/src/lib/write-queue.ts:103-110 | an enqueue starts a flush exactly when none is running and a batch is full, and its batch are then the oldest entries in order |
| `WriteProgress.FailedAfterAllAttempts` | gateway/src/lib/write-queue.ts:153-167 | an entry counts as failed only after exactly `maxRetries` + 1 failed attempts |
| `WriteProgress.AttemptedInTurn` | gateway/src/lib/write-queue.ts:119-178 | an entry at position p moves up one batch for each effective flush and is taken by the next one after p / `maxBatchSize`, whatever is enqueued behind it |
| `WriteProgress.FlushesDrain` | gateway/src/lib/write-queue.ts:119-178 | from any reachable state between flushes and without new enqueues, as many flushes as there are attempts left empty the queue even if every operation fails, and everything taken in has been flushed or has failed |
| `WriteProgress.DrainsIff` | gateway/src/lib/write-queue.ts:127-128 | from any reachable state between flushes, repeated flushing empties the queue exactly when the batch size is at least one or nothing was queued |
| `WriteProgress.RoundsRun` | gateway/src/lib/write-queue.ts:119-178 | flushes run one after another, step by step, give the queue computed flush by flush |
| `WriteProgress.FlushWeighsLess` | gateway/src/lib/write-queue.ts:119-178 | one flush uses up at least as many attempts as it takes entries |
| `WriteProgress.UninterruptedFlush` | gateway/src/lib/write-queue.ts:119-178 | a flush and the settling of its batch, step by step, give the queue computed in one go |
| `WriteAcks.ReturnedCarriesId` | gateway/src/lib/write-queue.ts:94-101 | after any run, once the append of a write has returned, every live entry of the write carries its id, queued or in a running batch |
| `WriteAcks.SuccessIsAcknowledged` | gateway/src/lib/write-queue.ts:138-150 | from then on the success of an operation of the write sends exactly its acknowledgement |
| `WriteAcks.SucceededLeavesLog` | gateway/src/lib/durable-write-log.ts:183-196 | so such a write is off the pending list as soon as its acknowledgement is no longer on its way, unless that was lost, with crashes and recoveries anywhere |
| `WriteAcks.EntriesKeepCategories` | gateway/src/lib/write-queue.ts:85-110 | in every reachable state each live entry has the category submitted for its write, enqueued or recovered |
| `WriteDelivery.EverythingHandledIsDelivered` | gateway/src/lib/write-queue.ts:119-247 | after any run with nothing on its way: after a crash, a whole recovery, as many successful flushes as there are attempts left and the arrival of what they send, the queue is empty and the pending list holds exactly the writes without a category or without a handler |
| `WriteDelivery.FlushedAndSent` | gateway/src/lib/write-queue.ts:119-178 | from any reachable state between flushes, enough flushes whose operations succeed empty the queue and send exactly the acknowledgements of its entries, in order |
| `WriteDelivery.AcksArrive` | gateway/src/lib/durable-write-log.ts:183-196 | the arrival of acknowledgements takes exactly their ids off the list |
| `WriteDelivery.RecoverableAcks` | gateway/src/lib/durable-write-log.ts:205-268 | what a recovery puts back is acknowledged under the ids that were listed and can be replayed |
| `WriteQueue.WriteQueue.Enqueue` | gateway/src/lib/write-queue.ts:85-110 | the entry goes to the end and its append to the log is sent; a full batch starts a flush unless one is running |
| `WriteQueue.WriteQueue.AppendResolved` | gateway/src/lib/write-queue.ts:94-101 | the id of the finished append reaches exactly the entry of that write, in the queue or in a batch being run |
| `WriteQueue.WriteQueue.BeginFlush` | gateway/src/lib/write-queue.ts:119-138 | up to its first operation a flush does what the step machine's flush step does; nothing while another one is running |
| `WriteQueue.WriteQueue.Settle` | gateway/src/lib/write-queue.ts:138-174 | from the end of one operation to the next await: counted and acknowledged, or re-queued while retries are left, or counted as failed; the last one ends the flush |
| `WriteQueue.WriteQueue.Flush` | gateway/src/lib/write-queue.ts:119-178 | a flush that nothing interrupts: one batch is run, failures re-queued behind the rest while retries are left, acknowledgements sent in order, and flushed, failed and queued balanced |
| `WriteQueue.WriteQueue.RecoverFromWal` | gateway/src/lib/write-queue.ts:210-247 | the queue grows by what the step machine's recovery puts back, removals are sent for exactly the unreadable ids, and the number returned is the number put back |
| `WriteQueue.DurableWriteLog.Append` | gateway/src/lib/durable-write-log.ts:150-177 | hash first, then list, sent when Redis is available |
| `WriteQueue.DurableWriteLog.Acknowledge` | gateway/src/lib/durable-write-log.ts:183-196 | list first, then hash, sent with an id and a connection |
| `WriteQueue.DurableWriteLog.Recover` | gateway/src/lib/durable-write-log.ts:205-268 | all readable entries with a category in list order; removals sent for exactly the unreadable ids |
| `WriteQueue.RedisServer.Deliver` | gateway/src/lib/durable-write-log.ts:165-196 | the next command of a pipeline changes exactly its part of the store and leaves the rest of the pipeline |
| `WriteQueue.DeliveredInPlace` | gateway/src/lib/durable-write-log.ts:165-196 | that is the delivery step of the step machine |
| `WriteQueue.HandledIsRequeued` | gateway/src/lib/write-queue.ts:217-236 | filtering by handler what the log recovered gives what the step machine puts back |
| `WriteQueue.RecoveredInOneGo` | gateway/src/lib/durable-write-log.ts:205-268 | a recovery in one go puts back the same entries and sends the same removals as the step machine reading entry by entry, with any reads failing |
| `RateLimiter.SlidingWindowRateLimiter.Check` | gateway/src/lib/resource-governor.ts:107-146 | verdict, wait, remaining allowance and the key's new entry are those of the specification, other keys untouched |
| `RateLimiter.SlidingWindowRateLimiter.Cleanup` | gateway/src/lib/resource-governor.ts:151-161 | every key's entry is removed when idle and trimmed otherwise, in whatever order keys are visited |
| `RateLimiter.LimiterBound` | gateway/src/lib/resource-governor.ts:107-161 | for a nondecreasing clock, any keys and cleanups anywhere, no 60-second window admits more than the per-minute limit plus twice the burst allowance per key |
| `RateLimiter.RunAccounted` | gateway/src/lib/resource-governor.ts:107-161 | after any run an entry accounts for everything admitted in the last minute and for its burst epoch |
| `RateLimiter.WindowBound` | gateway/src/lib/resource-governor.ts:107-161 | the bound for one key |
| `RateLimiter.BoundIsTight` | gateway/src/lib/resource-governor.ts:107-146 | some run reaches the bound exactly when there is a per-minute allowance or no burst allowance |
| `RateLimiter.BoundIsAttained` | gateway/src/lib/resource-governor.ts:107-146 | whenever a first check is admitted, a burst around the end of a burst epoch fills a window as far as the limits allow |
| `RateLimiter.BurstOnlyBound` | gateway/src/lib/resource-governor.ts:118-137 | with a burst allowance alone a window admits at least one fewer, since an epoch starts with its first admission |
| `RateLimiter.WindowMaximum` | gateway/src/lib/resource-governor.ts:107-161 | the exact maximum under all limits: no window of any run admits more and some window of some run admits as much |
| `RateLimiter.CleanupInvisible` | gateway/src/lib/resource-governor.ts:151-161 | inserting cleanups never changes a verdict exactly when there is a per-minute allowance or no burst allowance |
| `RateLimiter.CleanupHidden` | gateway/src/lib/resource-governor.ts:151-161 | with a per-minute allowance any run gives the verdicts of the same run without its cleanups |
| `RateLimiter.CleanupRevealed` | gateway/src/lib/resource-governor.ts:151-161 | the run in which one cleanup changes a verdict otherwise |
| `RateLimiter.KeysAreIndependent` | gateway/src/lib/resource-governor.ts:107-161 | each key sees only its own checks and the cleanups |
| `RateLimiter.RemainingIsExact` | gateway/src/lib/resource-governor.ts:123-137 | what remains after an admitted check is exactly how many more checks at the same time are admitted without a burst; the next one uses a burst or is refused |
| `RateLimiter.RetryIsFirstChance` | gateway/src/lib/resource-governor.ts:140-144 | after any run, when a refusal asks for more than a second, every check before that time is refused as well while the burst epoch lasts, and a check at that time is admitted if the per-minute limit alone fills the window |
| `RateLimiter.ForgottenExactly` | gateway/src/lib/resource-governor.ts:107-161 | a check drops exactly the times a minute old and adds its own exactly when admitted; a cleanup drops exactly those two minutes old, and the entry when none is left |
| `CircuitBreaker.MachinesAgree` | gateway/src/lib/unified-circuit-breaker.ts:76-358 | on the same operations the scripts and the in-memory machine give the same verdicts and retry times and show the same state and counts |
| `CircuitBreaker.AgreeExactly` | gateway/src/lib/unified-circuit-breaker.ts:76-358 | for every bound: over all runs whose failure times are at least that bound the two machines give the same results if and only if the bound is positive |
| `CircuitBreaker.NonpositiveDisagree` | gateway/src/lib/unified-circuit-breaker.ts:231-250 | under every configuration and for every time up to 0, the run of failures at that time followed by a check at the end of the recovery timeout on which the two machines differ |
| `CircuitBreaker.AgreeStep` | gateway/src/lib/unified-circuit-breaker.ts:76-358 | one operation keeps the two machines related; it needs success counts to be zero while closed |
| `CircuitBreaker.OpenTreatedAlike` | gateway/src/lib/unified-circuit-breaker.ts:231-250 | an open circuit is treated alike at all times exactly when its last failure time is positive |
| `CircuitBreaker.FallbackIsConservative` | gateway/src/lib/unified-circuit-breaker.ts:534-645 | after any run with Redis ready and keys expiring at any time, whatever the local breaker allows Redis allows |
| `CircuitBreaker.StricterStep` | gateway/src/lib/unified-circuit-breaker.ts:534-645 | every operation and every key expiry keeps the local breaker at least as strict |
| `CircuitBreaker.OutageBreaksConservatism` | gateway/src/lib/unified-circuit-breaker.ts:534-645 | under every threshold above one and every positive recovery time, a run with one outage after which the local breaker allows what Redis refuses |
| `CircuitBreaker.ResetBreaksConservatism` | gateway/src/lib/unified-circuit-breaker.ts:634-645 | for thresholds up to one, a reset during an outage does the same |
| `CircuitBreaker.ConservativeExactly` | gateway/src/lib/unified-circuit-breaker.ts:534-645 | over all runs with a positive clock that does not go back, the fallback is conservative if and only if there are no outages, or no recovery time, or the first failure opens a circuit and nobody resets one |
| `CircuitBreaker.CountsMatchState` | gateway/src/lib/unified-circuit-breaker.ts:267-350 | closed means failures below the threshold and no successes, otherwise failures have reached it; the last failure time is that of the last failure |
| `CircuitBreaker.HalfOpenHasTrial` | gateway/src/lib/unified-circuit-breaker.ts:267-350 | a half-open circuit goes back to an allowed check at least the recovery timeout after the last failure, with no failure since |
| `CircuitBreaker.ClosingNeedsTrial` | gateway/src/lib/unified-circuit-breaker.ts:267-350 | between being open and next closed there is such a check followed by exactly the required successes and no failure |
| `CircuitBreaker.RetryTimeIsExact` | gateway/src/lib/unified-circuit-breaker.ts:283-296 | without a new failure every check before the announced time is refused, counting down to it, and any check from it on is allowed |
| `CircuitBreaker.CheckTellsState` | gateway/src/lib/unified-circuit-breaker.ts:209-301 | both machines report the state that the check leaves, admit in every state but open, and then ask for no wait |
| `CircuitBreaker.OpensExactly` | gateway/src/lib/unified-circuit-breaker.ts:303-350 | a closed circuit opens exactly with the failure that makes the threshold in a row without a success or a reset |
| `CircuitBreaker.FailureCountIs` | gateway/src/lib/unified-circuit-breaker.ts:303-358 | the failure count is the number of failures since the circuit was last closed or met a success while closed, open and half-open times included |
| `CircuitBreaker.TimesAreKept` | gateway/src/lib/unified-circuit-breaker.ts:76-192 | both machines keep the times of the last failure and of the last success |
| `CircuitBreaker.LocalCircuitBreaker.Check` | gateway/src/lib/unified-circuit-breaker.ts:267-301 | one step of the in-memory machine for that circuit, creating it when absent |
| `CircuitBreaker.LocalCircuitBreaker.RecordFailure` | gateway/src/lib/unified-circuit-breaker.ts:303-332 | one failure step for that circuit |
| `CircuitBreaker.LocalCircuitBreaker.RecordSuccess` | gateway/src/lib/unified-circuit-breaker.ts:334-350 | one success step, nothing for an unknown circuit, others untouched |
| `CircuitBreaker.LocalCircuitBreaker.Reset` | gateway/src/lib/unified-circuit-breaker.ts:352-358 | a known circuit closes with zero counts |
| `CircuitBreaker.RedisStore.EvalRecordFailure` | gateway/src/lib/unified-circuit-breaker.ts:76-127 | the failure script on that key alone |
| `CircuitBreaker.RedisStore.EvalRecordSuccess` | gateway/src/lib/unified-circuit-breaker.ts:145-192 | the success script on that key alone |
| `CircuitBreaker.RedisStore.EvalCheck` | gateway/src/lib/unified-circuit-breaker.ts:209-250 | the check script on that key alone |
| `CircuitBreaker.UnifiedCircuitBreaker.Check` | gateway/src/lib/unified-circuit-breaker.ts:534-567 | Redis decides while it is ready and answers, otherwise the local breaker, and never both |
| `CircuitBreaker.UnifiedCircuitBreaker.RecordSuccess` | gateway/src/lib/unified-circuit-breaker.ts:572-598 | the local breaker always records, Redis when it is ready and answers |
| `CircuitBreaker.UnifiedCircuitBreaker.RecordFailure` | gateway/src/lib/unified-circuit-breaker.ts:603-629 | the local breaker always records, Redis when it is ready and answers |
| `CircuitBreaker.UnifiedCircuitBreaker.Reset` | gateway/src/lib/unified-circuit-breaker.ts:634-645 | the local circuit closes and the key goes when Redis is ready and answers |
| `CircuitBreaker.UnifiedCircuitBreaker.HandleRedisError` | gateway/src/lib/unified-circuit-breaker.ts:789-799 | Redis counts as not ready, and entering the fallback is counted once |
| `Composer.CompositionIgnoresGrouping` | src/core/blueprints/composer.py:208-328 | under every strategy composing composed groups gives the same entities, schemas, rules, actions and hooks, order included, as composing the flat list, and conflicts add up |
| `Composer.FailIgnoresGrouping` | src/core/blueprints/composer.py:230-242 | FAIL raises for the flat list exactly when it raises inside a group or between the composed groups |
| `Composer.CombineIsAssociative` | src/core/blueprints/composer.py:230-262 | resolving entity conflicts is associative under every strategy |
| `Composer.MergeFieldsAssociate` | src/core/blueprints/composer.py:245-253 | merging field lists by name is associative, order included |
| `Composer.PartGrouping` | src/core/blueprints/composer.py:208-328 | for one component, composing composed groups is composing the flat list and the conflicts add up |
| `Composer.EntityConflictCount` | src/core/blueprints/composer.py:208-228 | entity conflicts are total occurrences minus distinct names |
| `Precedence.EntitiesByOccurrence` | src/core/blueprints/composer.py:208-262 | for each entity name in order of first occurrence: under FIRST_WINS its first definition, under LAST_WINS its last, under MERGE the first primary key, all indexes in order, the union of constraints, the last description that is not empty and for each field name its last definition in the place of its first; FAIL composes exactly when names are distinct and then changes nothing |
| `Precedence.PartsByOccurrence` | src/core/blueprints/composer.py:264-328 | for each key in order of first occurrence: the last schema, the first rule, and of actions and hooks the first under FIRST_WINS and the last under every other strategy |
| `Precedence.ConflictsByOccurrence` | src/core/blueprints/composer.py:114-130 | the conflicts reported are definitions minus distinct names, of entities, actions and hooks together |
| `OrderedTable.FoldMeaning` | src/core/blueprints/composer.py:214-228 | what the dictionary loops compute: one value per key in order of first occurrence, each the combination of all its occurrences from left to right |
| `OrderedTable.GroupingIrrelevant` | src/core/blueprints/composer.py:208-328 | folding folded groups is folding the flat list, for any associative combination |
| `OrderedTable.FoldOfFold` | src/core/blueprints/composer.py:208-328 | folding a list that was folded already gives the same as folding it |
| `OrderedTable.ConflictCount` | src/core/blueprints/composer.py:214-228 | conflicts counted by the loop are items minus distinct keys |
| `OrderedTable.ConflictsAddUp` | src/core/blueprints/composer.py:214-228 | conflicts inside groups and between them are those of the flat list |
| `Composer.MergeFields` | src/core/blueprints/composer.py:244-253 | the merged fields are those of both entities by name, the later definition in the earlier place |
| `Composer.ComposeDbSchema` | src/core/blueprints/composer.py:208-228 | the fold of all entities and its conflict count, or an error exactly when FAIL meets a conflict, naming the first entity that repeats a name |
| `Composer.AbsorbEntities` | src/core/blueprints/composer.py:218-227 | one blueprint's entities into the table, stopping at the first conflict under FAIL |
| `Composer.ComposeRules` | src/core/blueprints/composer.py:277-288 | the first rule of each id, in order of occurrence |
| `Composer.Collect` | src/core/blueprints/composer.py:292-328 | the fold of all blueprints' actions or hooks with its conflict count, and that of the executor schemas |
| `Composer.Compose` | src/core/blueprints/composer.py:78-154 | nothing for no blueprints, a conflict error exactly under FAIL with conflicting entities, naming the first, otherwise all components composed and all conflicts summed |
| `ScanFreshness.ServedIsFresh` | gateway/src/lib/scan-cache.ts:384-466 | with growing modification times, however scans, edits and writes overlap, every issue list served is the scan of a version current within the last 120 seconds plus the time a scan takes from stat to answer, unless a failed stat is answered from the database |
| `ScanFreshness.RunKeepsWorld` | gateway/src/lib/scan-cache.ts:384-466 | every reachable state of both caches, waiting lookups and unfinished writes keeps the freshness invariant |
| `ScanFreshness.RunKeepsDatabase` | gateway/src/lib/scan-cache.ts:384-466 | in every run, failed stats included, rows and unanswered lookups keep what makes a database hit exact |
| `ScanFreshness.DatabaseHitsAreExact` | gateway/src/lib/scan-cache.ts:393-409 | in every run, whatever was served before, what the database answers to a lookup whose stat succeeded is the scan of a version current between the stat and the answer, even when the file changed between an earlier stat and read |
| `ScanFreshness.HitIsExact` | gateway/src/lib/scan-cache.ts:401-409 | why: a row at least as new as the stat was read no earlier than the version that was stat'ed |
| `ScanFreshness.LatencyCounts` | gateway/src/lib/scan-cache.ts:384-409 | a run within the latency that serves, 120 seconds plus the latency after it was edited away, the scan of a version no longer current |
| `ScanFreshness.FailedStatServesStale` | gateway/src/lib/scan-cache.ts:401-409 | a run in which a failed stat serves an outdated row of any age |
| `ScanFreshness.RecentExactly` | gateway/src/lib/scan-cache.ts:384-466 | for a scanner that tells two contents apart, everything served in any run within the latency was current within the last 120 seconds plus an age, if and only if the age covers the latency and no failed stat is answered from the database |
| `ScanCache.IncrementalIsFullScan` | gateway/src/lib/scan-cache.ts:508-606 | while contents stay the same an incremental scan shows what a full scan would, after any history of scans, filters, expiries, evictions, purges and database failures |
| `ScanCache.ScanFilesIsTrue` | gateway/src/lib/scan-cache.ts:526-588 | one scan over truthful caches finds what a full scan finds and leaves truthful caches |
| `ScanCache.AnswerComesFrom` | gateway/src/lib/scan-cache.ts:384-416 | the overlay while its entry lasts, then the row if the database answers and the row is no older than the file, and otherwise the file itself, scanned anew, if it can be read |
| `ScanCache.PassesExactly` | gateway/src/lib/scan-cache.ts:539-549 | what the filters let through, severity by severity: `info` passes all three, `warning` the last two, `error` errors, an unknown severity everything |
| `ScanCache.ShownExactly` | gateway/src/lib/scan-cache.ts:533-586 | the results are the outcomes with a passing issue, in order, each with its passing issues |
| `ScanCache.CountsAddUp` | gateway/src/lib/scan-cache.ts:533-570 | every outcome is counted once: cached, rescanned, or new when the stat gave no time |
| `ScanRefinement.OneScan` | gateway/src/lib/scan-cache.ts:384-466 | one scan of a file by the scanner is a stat, an answer, a reply and a write of the one-file model: same issue list, same caches afterwards |
| `ScanRefinement.HistoryIsARun` | gateway/src/lib/scan-cache.ts:384-606 | any history of edits, scans of this and other files and purges is a timely run of the one-file model, with the same answers and caches |
| `ScanRefinement.IncrementalScanIsEvents` | gateway/src/lib/scan-cache.ts:508-606 | an incremental scan is a scan of each file in turn and a purge |
| `ScanRefinement.GivenIsFresh` | gateway/src/lib/scan-cache.ts:384-466 | every issue list the scanner gives for a file whose stats succeed is the scan of a version current within 120 seconds and the latency before, whatever else is scanned, evicted, purged or fails |
| `ScanCache.IncrementalScanner.GetCachedScan` | gateway/src/lib/scan-cache.ts:384-416 | the overlay first, then a row at least as new as the file, which also enters the overlay; a failing database is a miss |
| `ScanCache.IncrementalScanner.SetCachedScan` | gateway/src/lib/scan-cache.ts:421-466 | the unfiltered issues enter the overlay, and the row under the time of the stat unless the database fails |
| `ScanCache.IncrementalScanner.PurgeDeletedFiles` | gateway/src/lib/scan-cache.ts:471-495 | exactly the rows of files no longer found go, and their number is returned; none when the database fails |
| `ScanCache.IncrementalScanner.IncrementalScan` | gateway/src/lib/scan-cache.ts:508-606 | the filtered results, all statistics and both caches are those of the specification, which scans each file once in order, with database failures anywhere; the category and severity filters act on the way out, so what the caches hold and a later scan finds does not depend on them |

## Left out

- InMemoryHNSW: cosine similarity is any total function into ordered scores; its floating-point arithmetic, vectors of other dimensions and the empty vectors that `VectorStore.delete` stores (which give NaN) are not modelled.
- InMemoryHNSW: nodes are values in a map rather than shared objects, M is a natural number, and latency statistics and memory estimates are left out.
- VectorIndex.InMemoryHNSW.SearchLayer: for entry points that repeat an id, which no caller passes, it promises termination and sorted hits, but not what the hits are.
- VectorIndex.SearchAgreesWithScan: says nothing about nodes that the bottom layer does not reach from where the descent ends, since pruned edges need not connect the graph; up to 2M + 1 nodes nothing is pruned there and `SmallSearchIsScan` covers all nodes.
- MemoryCache: timers, `getStats` and `destroy`; the Redis-backed cache, `cacheAside` and `cacheInvalidate` are input and output around the same interface.
- WriteQueue: queue entries are values with a serial number, so the update of `walId` in a shared object is an update of the entry wherever it is; the UUID of a write is identified with its number, and JSON round trips keep the payload.
- WriteQueue: a Redis command takes effect or is lost with its pipeline; the two are not told apart by an error to the caller. Replay handlers are fixed for a run, and one recovery runs at a time in a process.
- WriteQueue.WriteQueue.Flush: no enqueue or append callback arrives while it runs; `BeginFlush`, `Settle`, `Enqueue` and `AppendResolved` are the pieces between its awaits, and the step machine has all their interleavings.
- WriteQueue.WriteQueue.RecoverFromWal: reads list and hashes at one instant; the step machine reads them one by one with anything in between.
- WriteQueue: flush latency metrics, the periodic timer and `destroy`, which flushes at most one batch; the log's own `retryCount` field, which nothing on these paths uses.
- RateLimiter.RetryIsFirstChance: the announced wait is not always long enough: not when burst admissions fill the window beyond the per-minute limit, or several requests wait for one slot.
- RateLimiter: the governor's other layers (concurrency, database pressure) and its simpler circuit breaker, which closes on any success and is not the same automaton.
- CircuitBreaker: one timestamp for both records of an operation, one fixed configuration for a circuit; overrides at run time, the stored `config` field, key expiry times (a key may expire at any step instead) and statistics are left out, and a failing script is taken not to have run.
- Composer: metadata, validation and certification; constraints are sets, since the code's list of a set has no defined order; the attributes of fields, rules, actions, hooks and schemas besides their identifiers are one string each.
- Composer: entities and their lists are values, so that composed and source blueprints sharing objects is not captured.
- ScanCache: the scanners are an uninterpreted function of content and path, the walk of the directory tree an input; durations, file hashes, sizes, line counts, the directory time cache and project statistics are left out.
- ScanCache.IncrementalScanner.IncrementalScan: writes to the database land at once or fail; late writes, overlapping scans and edits in between are in `ScanFreshness`.
- ScanFreshness.ServedIsFresh: assumes that modification times strictly grow with each change of content; the other conditions are exact, by `RecentExactly`.
- ScanFreshness.ServedIsFresh: a list counts as served when the lookup of its own file is answered; `incrementalScan` returns after the last file and the purge, so a caller sees it later by that much.
- ScanRefinement.HistoryIsARun: edits fall between the scans of a history; `ScanFreshness` has them, and other scans, at any point inside one.
- ScanFreshness: one file; that the overlay evicts other entries is a step that may drop the entry at any time.
