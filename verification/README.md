# YGM in Dafny

A model of the core of YGM, a distributed active-message runtime with containers on top, and
proofs of what it promises over every run. `dafny verify dfyconfig.toml` checks the project.

## What is modelled

1. **The asynchronous disjoint set** (`Forest`, `UnionProtocol`, `UnionRun`,
   `UnionConnectivity`, `UnionRankBound`, `UnionRanks`, `UnionCallbacks`, `UnionTermination`,
   `DisjointSet`). A global state holds the items with parent, rank and estimated parent rank, the lossy
   cache of every rank, and the messages in flight. A run is any sequence of unions, deliveries
   in any order, finds and compressions. The central idea is that "this item is not a root, and lies
   below that item, whose rank is at least this" never becomes false, because only roots change
   their rank; every cache entry and message carries such a fact. From it follow: the parents
   form a forest; representatives are exactly the classes of the issued unions once no walk is
   in flight; `2^rank` never exceeds the number of items, and an item of the rank of its
   representative has a request to raise that rank in flight; callbacks count links exactly; and
   every schedule drains. `DisjointSet` is one rank as an object whose methods update its fields in
   place, proved against the same functions.
2. **`all_compress`** (`CompressProtocol`, `Compress`), with the questions that ranks hold back:
   it drains under every schedule, never fails a lookup, and leaves the flattened forest.
3. **`all_find` and `num_sets`** (`FindProtocol`, `FindRank`): questions, parent updates and
   answers of all ranks in flight together. Every schedule ends with every question answered by
   its representative, equal answers are connectivity, representatives never change on the way,
   and the counts of the ranks add up to the connected components.
4. **The barrier** (`Barrier`, `BarrierHistory`), a counting termination detector: two consecutive equal, balanced
   sums mean that nothing is in flight anywhere. A run goes through any number of full and
   asynchronous barriers on counters that are never reset, and ranks return one by one; no message
   is ever executed by a rank that has yet to return from a barrier its sender has left, and a call
   of `barrier` ends exactly when all ranks were in a full one.
   `ReceiveSteps` relates a received buffer to the steps of this model.
5. **The send buffers of the communicator** (`CommBuffers`, `CommHistory`, `Comm`): the methods of
   `comm` that queue, flush, send, receive, forward and run callbacks, as one object. Each says
   exactly which messages it handled, and what they, the caller and the callbacks put into which
   buffer; the full flush accounts for all of it and establishes the assertions of the barrier.
6. **Routing and broadcast on the grid of nodes** (`Grid`, `Routing`, `Broadcast`).
7. **Splitting files over ranks** (`LineParser`, `LinePositions`): scheduler, stream positions and
   discard rule together pass on every line exactly once; a line is described by its position in
   the file, and the shares of the ranks are even.
8. **The alias table** (`AliasTable`): balancing by a list that grows while it is read, and
   Vose's construction, over exact reals.
9. **Sorting an array** (`BlockPartition`, `Sorting`, `ArraySort`), **tree reductions**
   (`AllReduce`, `TopK`), and **the counting cache** (`CountingCache`, `CountingSet`).

Code that updates fields or arrays is modelled by classes and loops, and each such method is
proved against a function of its inputs or its old state; the theorems are lemmas about those
functions. `Arithmetic`, `Sequences` and `Sets` hold facts that several modules share.

## What is assumed

- A handler runs to completion before the next one on its rank. `process_receive_queue` enforces
  this (`include/ygm/detail/comm.ipp:1437`); the receive path inside the barrier
  (`include/ygm/detail/comm.ipp:824`) does not set its flag, so there it is an assumption.
- MPI delivers every buffer once. The models of the disjoint set, the compression and the counting
  set let messages arrive in any order. A reduction completes on a rank only after all ranks have
  contributed (section 5.12 of MPI 3.1).
- The items of a disjoint set are integers; only their order and equality matter. Ranks are
  unbounded in the model, and `RankFitsInt16` says when they fit the 16-bit type.
- All nodes have equally many ranks, numbered node by node.
- What cannot be seen from inside is a parameter: the hash functions, the owner of an item, which
  buffers have arrived and how many sends have completed when the communicator asks (scripts,
  after whose end all sends complete), and the indices that `array::sort` samples.
- A topk comparison is a strict total order, so that the best `k` are well defined.

## What turned out not to hold

- **Inserting from a handler while the counting cache flushes.** `count_cache_flush` calls
  `async_visit` before it clears the slot (`include/ygm/container/counting_set.hpp:429-435`), and
  `async` may run handlers. If such a handler inserts a key of that very slot, a count is lost or
  doubled. `CountingCache.FlushKeepsCountsIff` says exactly when all counts survive: no key hits the
  slot, or the keys that hit it end in exactly as many of its own key as it had counted (with the
  modulus of the counter for very long runs). `CountingCache.OneInsertLost` is the smallest case.
  In the flush of all slots, a key inserted into a slot that was passed stays in a cache that is
  then marked empty, with no flush registered: `CountingCache.OneKeyLeftBehind` is the smallest
  case, and `CountingCache.FlushAllEmptiesIff` says that the cache ends empty exactly when no
  handler inserts a key whose slot was passed. With handlers that only enqueue, the counts are
  exact (`CountsConserved`, `ExactAfterBarrier`).
- **Asking for an item that was never inserted.** The lookup of `all_find` creates a missing entry
  whose parent is the default item (`include/ygm/container/detail/disjoint_set_impl.hpp:633`), 0 in
  the model. `FindProtocol.AnswerIsRootIff` says that the answer is right exactly for items that
  have an entry and for the default item, `FindProtocol.FindKeepsForestIff` when the forest is still
  fit for unions afterwards, and `FindProtocol.MissingItem` is the smallest case.
- **Sorting an empty array on more than one rank.** Indices are drawn between 0 and `size() - 1`,
  which wraps around; no rank has the index drawn, and the assertion on the number of samples
  fails. `ArraySort.SortArray` proves that the assertion fails exactly when an index outside the
  array is drawn, and `ArraySort.EmptyArrayFails` that an empty array leaves no other choice.

## Model

| member | source | states |
|---|---|---|
| `Forest.Root` | include/ygm/container/detail/disjoint_set_impl.hpp:57-65 | the parents that set_parent stores lead from any item to a root, which is the item itself or lies above it in the order of (rank, item) |
| `Forest.RootUnique` | include/ygm/container/detail/disjoint_set_impl.hpp:629-657 | any function that is the item at a root and agrees with the parent elsewhere is the representative, so a question that climbs from parent to parent ends at it |
| `Forest.SameRoots` | include/ygm/container/detail/disjoint_set_impl.hpp:236-281 | two forests with the same roots whose parent pointers stay inside the trees of the other have the same representatives |
| `Forest.Create` | include/ygm/container/detail/disjoint_set_impl.hpp:148-155 | creating the entry of a visited item changes no representative and no looked-up value |
| `Forest.Reparent` | include/ygm/container/detail/disjoint_set_impl.hpp:174-176 | path splitting: moving a non-root to another item above it in its tree keeps the forest and all representatives |
| `Forest.Attach` | include/ygm/container/detail/disjoint_set_impl.hpp:245-251 | linking a root below an item above it keeps the forest, joins exactly two different trees and leaves all others alone |
| `Forest.Promote` | include/ygm/container/detail/disjoint_set_impl.hpp:49-55 | raising the rank of a root keeps the forest and all representatives |
| `Forest.FactStable` | include/ygm/container/detail/disjoint_set_impl.hpp:57-63 | a stored fact (this item lies below that one, whose rank is at least this) stays true whatever the protocol does later |
| `Forest.FactChain` | include/ygm/container/detail/disjoint_set_impl.hpp:727-737 | two such facts compose, and the composed shortcut never leads back to its start |
| `UnionProtocol.WalkCache` | include/ygm/container/detail/disjoint_set_impl.hpp:715-738 | the cache loop terminates for any sound cache content and returns an item above (or equal to) the start with a sound rank bound no worse than the one given |
| `UnionProtocol.Ends` | include/ygm/container/detail/disjoint_set_impl.hpp:218-227 | both ends a walk compares are sound, and its own end is the visited item exactly when that item is a root, whose rank is then known exactly |
| `UnionProtocol.WalkEffect` | include/ygm/container/detail/disjoint_set_impl.hpp:235-281 | a walk changes an item only by linking a root below an item of a different tree, and it is dropped only when its two ends already share a representative |
| `UnionProtocol.WalkOut` | include/ygm/container/detail/disjoint_set_impl.hpp:229-281 | a walk sends at most one message that carries it on and none if it ended; to the item it came from, if that was another one, it sends the news of a parent that lies further up |
| `UnionProtocol.NewsRaisesParent` | include/ygm/container/detail/disjoint_set_impl.hpp:57-63 | news of a better parent is taken while the old parent is still there and the estimate is no worse, and then the parent rises |
| `UnionProtocol.RequestTells` | include/ygm/container/detail/disjoint_set_impl.hpp:196-203 | a merge request that finds no root sends exactly one message, which moves the merging item further up |
| `UnionProtocol.CacheLearns` | include/ygm/container/detail/disjoint_set_impl.hpp:95-110 | an item whose parent was cached is passed by the next cache walk from it |
| `UnionRun.FirstWalkIsLower` | include/ygm/container/detail/disjoint_set_impl.hpp:285-303 | a union sends one walk, to where the cache leads from the end whose known rank is not the higher one, with the other end |
| `UnionProtocol.OtherEffect` | include/ygm/container/detail/disjoint_set_impl.hpp:168-206 | split, resolve and tell messages change no representative and no root; only a resolve at a root of the merging rank raises a rank, by one |
| `UnionProtocol.ResolveAssertions` | include/ygm/container/detail/disjoint_set_impl.hpp:187-195 | the assertions of the resolve handler and of increase_rank never fail |
| `UnionProtocol.HandleKeeps` | include/ygm/container/detail/disjoint_set_impl.hpp:142-283 | every handler keeps the forest, its rank's cache and the promises of all messages it sends |
| `UnionProtocol.LinkSends` | include/ygm/container/detail/disjoint_set_impl.hpp:258-270 | after a link the split and resolve messages sent with it are sound in the new forest |
| `UnionProtocol.CacheStable` | include/ygm/container/detail/disjoint_set_impl.hpp:95-110 | a cache entry that was sound stays sound while the forest evolves |
| `UnionProtocol.MsgStable` | include/ygm/container/detail/disjoint_set_impl.hpp:209-213 | a message that was sound when sent stays sound until it is delivered, in any order |
| `UnionRun.Run` | include/ygm/container/detail/disjoint_set_impl.hpp:142-303 | in every run of unions, deliveries in any order, finds and compressions the invariant holds: a forest, sound caches, sound messages |
| `UnionRun.NextKeepsInv` | include/ygm/container/detail/disjoint_set_impl.hpp:142-303 | each single step keeps that invariant |
| `UnionRun.DeliverKeepsInv` | include/ygm/container/detail/disjoint_set_impl.hpp:142-164 | delivering any message in flight, with the creation of the visited item, keeps it |
| `UnionRun.ParentsFormForest` | include/ygm/container/detail/disjoint_set_impl.hpp:57-65 | in every reachable state each parent exists, and following parents from a non-root strictly rises and never leads back |
| `UnionRun.FlattenedForest` | include/ygm/container/detail/disjoint_set_impl.hpp:534-551 | pointing every item at its representative gives a flat forest with the same roots and representatives |
| `UnionRun.ShortenedForest` | include/ygm/container/detail/disjoint_set_impl.hpp:642-644 | pointing any of the items at their representatives, as all_find does, changes no rank, root or representative, and all that caches and messages claim stays true |
| `UnionRun.CompressFlattens` | include/ygm/container/detail/disjoint_set_impl.hpp:503-509 | at quiescence all_compress leaves a flat forest with the same items and representatives, and returns early only when the forest is flat already |
| `UnionConnectivity.HandlePreserves` | include/ygm/container/detail/disjoint_set_impl.hpp:166-303 | a handler neither adds to nor takes from the equivalence that forest and pending walks generate together |
| `UnionConnectivity.NextRepresents` | include/ygm/container/detail/disjoint_set_impl.hpp:166-303 | one step changes that equivalence only by the pair of a new union |
| `UnionConnectivity.RunRepresents` | include/ygm/container/detail/disjoint_set_impl.hpp:166-303 | in every run the forest with its pending walks generates exactly the equivalence of the issued unions |
| `UnionConnectivity.SharedRootIsConnected` | include/ygm/container/detail/disjoint_set_impl.hpp:235-251 | in every reachable state two items with one representative are connected by the unions issued |
| `UnionConnectivity.SharedRootIffConnected` | include/ygm/container/detail/disjoint_set_impl.hpp:235-281 | with no walk in flight two items have one representative exactly when the unions connect them |
| `UnionRankBound.RankBound` | include/ygm/container/detail/disjoint_set_impl.hpp:189-195 | in every reachable state 2^rank of an item is at most the size of its tree, hence at most the number of items |
| `UnionRankBound.RankFitsInt16` | include/ygm/container/detail/disjoint_set_impl.hpp:28 | a rank exceeds the 16-bit type only with 2^32768 items or more |
| `UnionRankBound.PromotionSizes` | include/ygm/container/detail/disjoint_set_impl.hpp:193-195 | raising a rank is paid for by the tree that was merged before the resolve message was sent |
| `UnionRankBound.LinkSizes` | include/ygm/container/detail/disjoint_set_impl.hpp:258-270 | a link keeps the size bound of every tree and pays for its resolve message |
| `UnionRanks.LinkAsks` | include/ygm/container/detail/disjoint_set_impl.hpp:245-270 | a link goes below a strictly higher rank, or asks the new parent to raise its rank |
| `UnionRanks.RequestRaises` | include/ygm/container/detail/disjoint_set_impl.hpp:187-195 | a request that finds a root of the rank it was sent for raises that rank by one |
| `UnionRanks.RunOwes` | include/ygm/container/detail/disjoint_set_impl.hpp:179-270 | in every reachable state: if an item that is not a root has the rank of its representative, a request to raise that very rank is in flight to it |
| `UnionRanks.RootsRankHigher` | include/ygm/container/detail/disjoint_set_impl.hpp:187-195 | with no such request in flight every representative ranks strictly above all items of its tree |
| `UnionRanks.ConnectedRaises` | include/ygm/container/detail/disjoint_set_impl.hpp:702-709 | once a run has come to rest, items that unions connect have a representative of rank at least 1, which max_rank reports |
| `UnionCallbacks.HandleCalls` | include/ygm/container/detail/disjoint_set_impl.hpp:349-480 | a handler passes the call of a walk on or runs its callback, never both and never neither |
| `UnionCallbacks.HandleRoots` | include/ygm/container/detail/disjoint_set_impl.hpp:395-466 | a link lowers the number of roots by exactly one, every other handler leaves it |
| `UnionCallbacks.CallbacksCountLinks` | include/ygm/container/detail/disjoint_set_impl.hpp:349-501 | in every run callbacks told true plus plain links equal items minus roots (only the former when just async_union_and_execute is used), and at quiescence every call has run its callback exactly once |
| `UnionTermination.WalkGetsCloser` | include/ygm/container/detail/disjoint_set_impl.hpp:239-281 | a walk that goes on has a strictly smaller distance: it climbed, or knows more about the order of the two roots |
| `UnionTermination.DeliverDecreases` | include/ygm/container/detail/disjoint_set_impl.hpp:142-283 | every delivery decreases a lexicographic measure of links left and work of the messages in flight |
| `UnionTermination.EveryScheduleDrains` | include/ygm/container/detail/disjoint_set_impl.hpp:142-303 | from any reachable state every delivery schedule empties the network after finitely many handlers, and then representatives match the unions |
| `DisjointSetRank.DisjointSet.AddCacheEntry` | include/ygm/container/detail/disjoint_set_impl.hpp:95-110 | the array slot is overwritten exactly when empty or when the new estimate is at least as high |
| `DisjointSetRank.DisjointSet.ShortcutThroughCache` | include/ygm/container/detail/disjoint_set_impl.hpp:715-738 | the loop over cache entries returns what the specified walk returns, and terminates |
| `DisjointSetRank.DisjointSet.FindOrInsert` | include/ygm/container/detail/disjoint_set_impl.hpp:148-155 | a missing item is created as a root of rank 0 and nothing else changes |
| `DisjointSetRank.DisjointSet.AsyncUnion` | include/ygm/container/detail/disjoint_set_impl.hpp:285-303 | the first walk is sent for the end that may be lower, and the compressed flag is cleared |
| `DisjointSetRank.DisjointSet.OnWalk` | include/ygm/container/detail/disjoint_set_impl.hpp:209-283 | the walk handler updates the item map, outbox and callbacks exactly as the specified walk |
| `DisjointSetRank.DisjointSet.Proceed` | include/ygm/container/detail/disjoint_set_impl.hpp:235-281 | the comparison of the two ends: link, switch sides, go on or stop, with the callback that belongs to it |
| `DisjointSetRank.DisjointSet.SameRank` | include/ygm/container/detail/disjoint_set_impl.hpp:258-281 | equal ranks: ties broken by the items, with the resolve request after a link |
| `DisjointSetRank.DisjointSet.OnSplit` | include/ygm/container/detail/disjoint_set_impl.hpp:168-177 | the cache learns the new parent, and the item moves only if its parent is still the old one |
| `DisjointSetRank.DisjointSet.OnResolve` | include/ygm/container/detail/disjoint_set_impl.hpp:179-206 | nothing below a higher rank; a root of the merging rank gets a rank one higher; otherwise the merging item is told about the parent |
| `DisjointSetRank.DisjointSet.OnTell` | include/ygm/container/detail/disjoint_set_impl.hpp:197-203 | the told item keeps its rank, its estimate never falls, its parent is replaced exactly when the new estimate is at least as high, and no representative in the whole forest changes |
| `DisjointSetRank.DisjointSet.Receive` | include/ygm/container/detail/disjoint_set_impl.hpp:142-164 | visiting with creation followed by the handler of the message gives exactly the specified outcome |
| `DisjointSetRank.DeliveryIsLocal` | include/ygm/container/detail/disjoint_set_impl.hpp:142-164 | a delivery in the global model changes only the rank that owns the visited item |
| `CompressProtocol.RanksPrepared` | include/ygm/container/detail/disjoint_set_impl.hpp:573-596 | if every rank prepared its maps and sent its queries, the global protocol starts in its invariant |
| `CompressProtocol.DeliverKeepsCInv` | include/ygm/container/detail/disjoint_set_impl.hpp:529-568 | each query and each update keeps: an item is updated to its representative once, and what it holds is still owed |
| `CompressProtocol.NothingHeld` | include/ygm/container/detail/disjoint_set_impl.hpp:561-563 | when no message is left no question can still be held, since waiting follows the acyclic parent order |
| `CompressProtocol.QuiescentIsFlattened` | include/ygm/container/detail/disjoint_set_impl.hpp:503-601 | when no message is left every item points at the representative it had before the call |
| `CompressProtocol.DeliverDecreasesC` | include/ygm/container/detail/disjoint_set_impl.hpp:529-568 | every delivery decreases the queries left, or the answers still to be sent and received |
| `CompressProtocol.CompressReachesFlat` | include/ygm/container/detail/disjoint_set_impl.hpp:503-601 | under every schedule the protocol drains and ends with exactly the flattened forest |
| `CompressProtocol.CompressNeverStuck` | include/ygm/container/detail/disjoint_set_impl.hpp:533 | at every moment each message in flight can be handled: the lookup of the queried parent never fails |
| `CompressRank.Compressor.Prepare` | include/ygm/container/detail/disjoint_set_impl.hpp:573-588 | the loop fills the query and status maps so that each non-root is asked for exactly once under its parent |
| `CompressRank.Compressor.StartQueries` | include/ygm/container/detail/disjoint_set_impl.hpp:593-596 | exactly one query is sent for every parent, and nothing else |
| `CompressRank.Compressor.OnQuery` | include/ygm/container/detail/disjoint_set_impl.hpp:554-568 | an item that waits holds the question, any other answers with its parent |
| `CompressRank.Compressor.OnUpdate` | include/ygm/container/detail/disjoint_set_impl.hpp:529-552 | all inquiring items are set to the representative and every held question is answered |
| `CompressRank.UpdateEachClosed` | include/ygm/container/detail/disjoint_set_impl.hpp:536-549 | updating the inquiring items one after the other equals updating them all at once |
| `FindProtocol.FindsInv` | include/ygm/container/detail/disjoint_set_impl.hpp:629-665 | in every run of all_find, with the messages of all ranks delivered in any order: an entry is as it was or points at the answer, every message carries the right root, and every question is answered or on its way |
| `FindProtocol.AnswersAreRoots` | include/ygm/container/detail/disjoint_set_impl.hpp:621-669 | with no message left exactly the questions asked are answered, by the representative, and every item asked for points straight at it |
| `FindProtocol.AnswerIsRootIff` | include/ygm/container/detail/disjoint_set_impl.hpp:633 | the answer is the representative of the item exactly when the item had an entry or is the default item: a missing entry is created with the default item as its parent |
| `FindProtocol.FindKeepsForestIff` | include/ygm/container/detail/disjoint_set_impl.hpp:633 | all_find leaves parents in the order that unions rely on exactly when each item asked for had an entry, is the default item, or lies below its representative |
| `FindProtocol.MissingItem` | include/ygm/container/detail/disjoint_set_impl.hpp:633-657 | the smallest case: asking an empty set for 5 answers 0, joins 5 to 0 and breaks that order |
| `FindProtocol.ClimbReachesRep` | include/ygm/container/detail/disjoint_set_impl.hpp:633-657 | at every moment of a run, whatever parent updates have been delivered, following parents from any entry leads to its representative |
| `FindProtocol.FindShortens` | include/ygm/container/detail/disjoint_set_impl.hpp:642-644 | when all items asked for have entries the outcome is that they point at their representatives and nothing else changed |
| `FindProtocol.HandleDecreases` | include/ygm/container/detail/disjoint_set_impl.hpp:636-657 | every delivery lowers the number of messages and steps still to come |
| `FindProtocol.EveryFindReturns` | include/ygm/container/detail/disjoint_set_impl.hpp:661-668 | every order of delivery ends after finitely many handlers with each question answered by its representative |
| `FindProtocol.AnswersAreConnectivity` | include/ygm/container/detail/disjoint_set_impl.hpp:621-669 | after any run of unions that came to rest, the answers two ranks get about two known items are equal exactly when the unions connect the items |
| `FindProtocol.FindIsLocal` | include/ygm/container/detail/disjoint_set_impl.hpp:638-657 | a delivery changes only the entries and the returned map of the rank it is addressed to |
| `FindRank.Finder.AskAll` | include/ygm/container/detail/disjoint_set_impl.hpp:661-665 | the loop sends one question for every element asked for, to start at that element |
| `FindRank.Finder.Receive` | include/ygm/container/detail/disjoint_set_impl.hpp:630-657 | the functor and its two lambdas update the entries, the returned map and the outbox as the specified handlers, creating a missing entry first |
| `FindRank.Finder.LocalSets` | include/ygm/container/detail/disjoint_set_impl.hpp:684-689 | the loop counts exactly the roots among this rank's entries |
| `FindRank.Finder.LocalMaxRank` | include/ygm/container/detail/disjoint_set_impl.hpp:702-707 | the loop finds the largest rank among this rank's entries |
| `FindRank.NumSets` | include/ygm/container/detail/disjoint_set_impl.hpp:682-691 | once a run has come to rest the counts of all ranks add up to the number of connected components that the unions make of the items |
| `Barrier.RunInv` | include/ygm/detail/comm.ipp:413-464 | in every run of any number of full and asynchronous barriers: messages are conserved, every snapshot of a reduction precedes every snapshot of the next, and what is under way was sent after the latest barrier |
| `Barrier.EqualSumsAreCalm` | include/ygm/detail/comm.ipp:447-450 | two consecutive rounds with equal balanced sums mean that no counter moved in between and nothing is in flight |
| `Barrier.ExitMeansQuiescent` | include/ygm/detail/comm.ipp:443-458 | in every barrier of every run: when the loop exits on any rank no message is buffered or in flight, no callback is registered, and all ranks exit after the same reduction |
| `Barrier.ExecutedInItsEra` | include/ygm/detail/comm.ipp:443-464 | a message is executed between the same two barriers in which it was sent: nothing sent after a return reaches a rank still in that barrier |
| `Barrier.ReturnMeansAllArrived` | include/ygm/detail/comm.ipp:406-412 | when one rank has returned from a barrier every other has left its loop, and all that is under way was sent after that barrier |
| `Barrier.AsyncBarrierIsNotFull` | include/ygm/detail/comm.ipp:399-404 | the assertion of async_barrier holds: its barrier is never reported as full |
| `Barrier.AgreeKeeps` | include/ygm/detail/comm.ipp:461-463 | the last reduction, after which the next barrier starts from counters that are not reset, keeps the invariant |
| `BarrierHistory.ReturnTellsTruth` | include/ygm/detail/comm.ipp:422-463 | in every run a rank returns from a last reduction that took place when all ranks had left the loop, and is outside the barrier then, unless it called barrier and some rank called async_barrier |
| `BarrierHistory.FullBarrierEnds` | include/ygm/detail/comm.ipp:422-425 | when all ranks have left the loop of a full barrier each is outside after its return, whatever happens in between; if one is in async_barrier those in barrier stay |
| `BarrierHistory.FullIsHistory` | include/ygm/detail/comm.ipp:443 | a rank contributes to the last reduction which of the two calls it entered by |
| `BarrierHistory.CountersAreHistory` | include/ygm/detail/comm.ipp:229-236 | in every run the counters of a rank are the handlers it ran and the messages it sent, and the waiting callbacks those registered and not yet run |
| `Barrier.QuietBarrierEnds` | include/ygm/detail/comm.ipp:447-454 | in any barrier, once all ranks are in it and nothing is left to do, no rank takes part in more than three further reductions |
| `Barrier.CountingLoop` | include/ygm/detail/comm.ipp:445-454 | the loop on pairs of counts stops in the first round whose sums are balanced and equal those of the round before, and never after the first round alone |
| `Barrier.SameTest` | include/ygm/detail/comm.ipp:447-450 | the loop and the state machine stop on the same test |
| `Barrier.NextConserves` | include/ygm/detail/comm.ipp:782-786 | every step keeps sent = received + buffered + on the wire, summed over the ranks |
| `ReceiveSteps.BufferIsSteps` | include/ygm/detail/comm.ipp:1374-1426 | the messages of one received buffer are one step of the barrier's model each: every handler counted once, what handlers send once, forwarded messages not at all |
| `ReceiveSteps.ReceiveBuffer` | include/ygm/detail/comm.ipp:1363-1429 | the communicator that handles a received buffer changes its counters as those steps do |
| `CommBuffers.AppendKeeps` | include/ygm/detail/comm.ipp:247-279 | queueing a message keeps the books: byte counters are buffer sizes, each destination is queued exactly while its buffer is non-empty |
| `CommBuffers.ShipKeeps` | include/ygm/detail/comm.ipp:898-904 | popping a destination and sending its buffer keeps the books, never underflows a counter and lowers the side's bytes |
| `CommBuffers.CompleteKeeps` | include/ygm/detail/comm.ipp:912-921 | a completed send keeps pending bytes equal to the total of the send queue |
| `CommBuffers.BytesAreQueued` | include/ygm/detail/comm.ipp:1052-1061 | positive bytes on a side mean a non-empty queue on that side, so a flush never pops an empty queue |
| `CommBuffers.EmptyQueuesShippedAll` | include/ygm/detail/comm.ipp:1040-1045 | with both queues empty everything ever put into a buffer was handed to MPI, in order |
| `CommObject.Comm.CheckCompletedSends` | include/ygm/detail/comm.ipp:926-944 | exactly the sends that have completed leave the front of the queue, with their bytes |
| `CommObject.Comm.Enqueue` | include/ygm/detail/comm.ipp:247-279 | the method updates the fields exactly as the specified append |
| `CommObject.Comm.QueueMessageBytes` | include/ygm/detail/comm.ipp:1316-1354 | a broadcast message goes into its partner's buffer and is counted once |
| `CommObject.Comm.PostSend` | include/ygm/detail/comm.ipp:838-890 | the whole buffer becomes a pending send and the counters of its side drop by its size |
| `CommObject.Comm.ShipNext` | include/ygm/detail/comm.ipp:898-904 | the first destination leaves its queue with its whole buffer, and the books stay kept |
| `CommObject.Comm.FlushNextSend` | include/ygm/detail/comm.ipp:898-904 | nothing happens on an empty queue; otherwise one buffer is sent, and exactly the messages that arrive are handled unless that is what led here |
| `CommObject.Comm.FlushToCapacity` | include/ygm/detail/comm.ipp:1052-1061 | the loop ends with both byte counters within capacity |
| `CommObject.Comm.CheckIfProductionHaltRequired` | include/ygm/detail/comm.ipp:957-963 | the waiting loop ends with pending bytes within both capacities; while receiving it does nothing |
| `CommObject.Comm.AsyncSend` | include/ygm/detail/comm.ipp:229-294 | the message is counted once and put into the buffer of its next hop, for its destination; besides, exactly the messages that arrived are handled |
| `CommObject.Comm.RunSends` | include/ygm/detail/comm.ipp:229-294 | every message of a list is counted and put into the right buffer, in order while nothing arrives |
| `CommObject.Comm.HandleMessage` | include/ygm/detail/comm.ipp:1381-1425 | a message for this rank is executed and counted once, with what its handler sends and registers; one for another rank goes into the buffer of its next hop, uncounted |
| `CommObject.Comm.Forward` | include/ygm/detail/comm.ipp:1388-1417 | a forwarded message is appended to the buffer of its next hop, for the destination it had; no other buffer and no counter changes |
| `CommObject.Comm.HandleNextReceive` | include/ygm/detail/comm.ipp:1363-1429 | of a received buffer exactly its messages for this rank are counted as received, exactly what their handlers send as sent, the others are forwarded, the callbacks are registered in order, and the byte counters end within capacity |
| `CommObject.Comm.LocalProcessIncoming` | include/ygm/detail/comm.ipp:1494-1516 | all buffers that are ready leave the network in order, and exactly the messages in them are handled: executed and counted, or forwarded |
| `CommObject.Comm.ProcessReceiveQueue` | include/ygm/detail/comm.ipp:1436-1486 | never re-entered; exactly the messages that arrived are handled, and it reports whether there were any |
| `CommObject.Comm.RunCallbacks` | include/ygm/detail/comm.ipp:1020-1025 | all registered callbacks run, also those registered by callbacks; every message they send is counted and put into the right buffer, once |
| `CommObject.Comm.RunFirstCallback` | include/ygm/detail/comm.ipp:1020-1025 | the oldest callback leaves the list and is run; what it registers waits behind the others |
| `CommObject.Comm.FlushSide` | include/ygm/detail/comm.ipp:1029-1038 | the queue of one side is emptied unless new messages arrived |
| `CommObject.Comm.WaitOnSends` | include/ygm/detail/comm.ipp:1042-1044 | the wait ends with an empty send queue |
| `CommObject.Comm.FlushAllLocalAndProcessIncoming` | include/ygm/detail/comm.ipp:1013-1046 | on return callbacks, queues and pending sends are empty and all byte counters 0; what was counted, put into each buffer and handed to MPI is exactly what the messages that arrived and all callbacks were to do |
| `CommHistory.HandledTwice` | include/ygm/detail/comm.ipp:1374-1426 | handling one list of messages after another is handling both: counters, callbacks and packets add up in order |
| `CommHistory.RunAccounted` | include/ygm/detail/comm.ipp:1020-1025 | running the oldest callback turns what it was to do into what has been done, while arriving messages add exactly what they bring |
| `CommHistory.AllNotified` | include/ygm/detail/comm.ipp:1013-1046 | with no callback left the packets put into buffers are, as a multiset, those of the handled messages and of all callbacks |
| `Grid.Coordinates` | include/ygm/detail/layout.hpp:124-128 | node and local ids of the rank at given coordinates are those coordinates, and it is a rank exactly when the node exists |
| `Grid.RankFromCoordinates` | include/ygm/detail/layout.hpp:105-128 | every rank is the rank at its own coordinates |
| `Routing.NextHopExists` | include/ygm/detail/comm_router.hpp:37-74 | the next hop is always a rank of the layout |
| `Routing.RouteReaches` | include/ygm/detail/comm_router.hpp:27-36 | repeating the next hop from any source arrives within 1, 2 or 3 hops, stays there, and leaves the node at most once (NR, NLNR) |
| `Routing.OffNodePairs` | include/ygm/detail/comm_router.hpp:34-36 | across nodes NR pairs ranks of equal local id, NLNR only those whose local id is the sum of the node ids modulo the local size: a subset, and symmetric |
| `Broadcast.ForwardRemote` | include/ygm/detail/comm.ipp:1191-1216 | the partners reached by offset and layer strides are exactly the specified ones |
| `Broadcast.ForwardLayers` | include/ygm/detail/comm.ipp:1205-1215 | the stride loop stops at the first partner past the last rank and skips its own node |
| `Broadcast.ForwardLocal` | include/ygm/detail/comm.ipp:1160-1175 | the local fan-out reaches every other rank of the node |
| `Broadcast.PartnersServe` | include/ygm/detail/comm.ipp:1192-1215 | a rank has exactly one partner on another node when its local id is the sum of the two node ids modulo the local size, and else none; all partners are ranks |
| `Broadcast.EveryRankOnce` | include/ygm/detail/comm.ipp:1147-1233 | a broadcast from any rank is executed exactly once on every rank and nowhere else |
| `Broadcast.MessageCount` | include/ygm/detail/comm.ipp:1147-1233 | it takes as many messages as there are ranks |
| `LineParser.LineEnd` | include/ygm/io/line_parser.hpp:198 | a line ends at the first line break at or after its start, or at the end of the file |
| `LineParser.InputStream.Getline` | include/ygm/io/line_parser.hpp:198 | the stream returns the rest of the current line, moves past its break, and fails only at the end of the file |
| `LineParser.ReadLines` | include/ygm/io/line_parser.hpp:197-211 | the loop passes on exactly the lines that start at or before the end of the chunk, without the dropped first line; what each of them is, `LinePositions.LinesByPosition` says |
| `LinePositions.LinesByPosition` | include/ygm/io/line_parser.hpp:197-211 | one line is passed on for every line start up to the limit: the bytes up to the next break, shortened by exactly one if the last is a carriage return and otherwise whole |
| `LinePositions.FileLinesByPosition` | include/ygm/io/line_parser.hpp:176-212 | a sequential read passes on the line of every line start of the file, in order, without the first if that is skipped |
| `LinePositions.LineIsUnique` | include/ygm/io/line_parser.hpp:199-203 | this description leaves only one line for a position |
| `LinePositions.SameOnWindows` | include/ygm/io/line_parser.hpp:199-203 | a file with carriage returns before all line breaks delivers the same lines as without them |
| `LineParser.ReadChunk` | include/ygm/io/line_parser.hpp:179-212 | a chunk delivers the lines that start after the line in which it begins, up to its end |
| `LineParser.CutLines` | include/ygm/io/line_parser.hpp:180-200 | the line that contains a cut belongs to the chunk before the cut, wherever the cut falls |
| `LineParser.TilesDeliver` | include/ygm/io/line_parser.hpp:176-212 | chunks that tile a file deliver its lines in order, each once |
| `LineParser.HandOut` | include/ygm/io/line_parser.hpp:90-114 | handing out more of the last file keeps: finished files are cut from end to end, the last one up to its position |
| `LineParser.FillRank` | include/ygm/io/line_parser.hpp:85-115 | one rank takes its budget in full unless the list runs out |
| `LineParser.AssignChunks` | include/ygm/io/line_parser.hpp:69-118 | all bytes of all files are assigned, as tiles, to existing ranks, and every rank in turn gets exactly its share |
| `LineParser.SharesAreEven` | include/ygm/io/line_parser.hpp:82-83 | no rank gets more than the larger of its even share and the smallest chunk, and none gets anything before the one in front of it is filled |
| `LineParser.EveryLineOnce` | include/ygm/io/line_parser.hpp:61-214 | for every line, its occurrences over all ranks are its occurrences in sequential reads of the files |
| `LineParser.ForAll` | include/ygm/io/line_parser.hpp:61-214 | scheduler and readers together pass on every line exactly as often as the files hold it |
| `AliasTable.DealWhole` | include/ygm/random/alias_table.hpp:158-161 | an item that fits leaves every rank's share of the line dealt out so far exact |
| `AliasTable.DealFull` | include/ygm/random/alias_table.hpp:132-157 | filling up a rank gives it exactly its share, and the rest of the item is carried on |
| `AliasTable.CutStep` | include/ygm/random/alias_table.hpp:132-157 | the filling branch never needs a rank past the last and keeps weight per identifier |
| `AliasTable.FillRank` | include/ygm/random/alias_table.hpp:132-157 | the branch as written, with the cut item appended to the list when it is large, keeps the loop's books |
| `AliasTable.DealItems` | include/ygm/random/alias_table.hpp:130-162 | the loop over the growing list terminates with everything dealt out |
| `AliasTable.FirstDest` | include/ygm/random/alias_table.hpp:119-121 | the first rank served is one whose share contains the prefix, or one past the last, and what it already got is the remainder |
| `AliasTable.BalanceRank` | include/ygm/random/alias_table.hpp:109-169 | a rank sends to each rank exactly the overlap of its stretch of weights with that rank's share, and every identifier's weight in full |
| `AliasTable.DealOut` | include/ygm/random/alias_table.hpp:109-172 | after all ranks have sent, every rank holds exactly the target |
| `AliasTable.BalanceWeight` | include/ygm/random/alias_table.hpp:109-176 | every rank ends with exactly total/P, not empty, and each identifier keeps its total weight |
| `AliasTable.PairStep` | include/ygm/random/alias_table.hpp:213-224 | one pairing keeps light below and heavy at or above the average, their average, and every identifier's mass |
| `AliasTable.AllAverage` | include/ygm/random/alias_table.hpp:226-233 | heavy items left over weigh exactly the average each |
| `AliasTable.NoLightLeft` | include/ygm/random/alias_table.hpp:234-239 | no light item can be left over |
| `AliasTable.BuildLocalAliasTable` | include/ygm/random/alias_table.hpp:194-239 | one entry per item, 0 <= p <= average, and the mass of every identifier is its weight |
| `AliasTable.BuildAliasTable` | include/ygm/random/alias_table.hpp:101-107 | both steps: tables of equal mass on all ranks, and per identifier the mass of its items over all ranks |
| `BlockPartition.BlocksTile` | include/ygm/container/detail/block_partitioner.hpp:33-55 | blocks start at 0, follow each other without gaps to the size of the array and differ by at most one |
| `BlockPartition.OwnerHolds` | include/ygm/container/detail/block_partitioner.hpp:64-98 | the owner is a rank, the index lies in its block, and the global index of its local index is the index: no assertion fails |
| `BlockPartition.OwnerOfSlot` | include/ygm/container/detail/block_partitioner.hpp:107-111 | every slot of a block has a global index inside the array, owned by that rank, at that slot |
| `BlockPartition.SmallBlockUsed` | include/ygm/container/detail/block_partitioner.hpp:76 | the small block is never empty where it divides |
| `Sorting.SortSorts` | include/ygm/container/array.hpp:954-956 | the sort orders by any total order |
| `Sorting.SortedUnique` | include/ygm/container/array.hpp:954-956 | only one sequence of given elements is ordered |
| `Sorting.ArrivalOrder` | include/ygm/container/array.hpp:948-956 | the order in which values arrived makes no difference to the sorted piece |
| `ArraySort.DrawSamples` | include/ygm/container/array.hpp:914-926 | each drawn index inside the array yields exactly one sample, one outside none |
| `ArraySort.ChoosePivots` | include/ygm/container/array.hpp:930-938 | from steps times count samples come exactly count pivots in order, each the last of its group of step sorted samples |
| `ArraySort.LowerBound` | include/ygm/container/array.hpp:943-946 | a key goes to the first pivot that is not less: every earlier pivot is strictly less |
| `ArraySort.SendToOwners` | include/ygm/container/array.hpp:942-951 | every value lands, once, on the rank between whose pivots it lies |
| `ArraySort.PiecesMakeSorted` | include/ygm/container/array.hpp:954-961 | sorted pieces between sorted pivots make a sorted whole |
| `ArraySort.WriteBack` | include/ygm/container/array.hpp:958-961 | writing the pieces at their prefix sums gives the array whose blocks, read in order, are the pieces |
| `ArraySort.SortArray` | include/ygm/container/array.hpp:895-964 | for any sampled indices inside the array the result is globally sorted and has the multiset of elements it had; the sample assertion fails exactly when an index lies outside |
| `ArraySort.EmptyArrayFails` | include/ygm/container/array.hpp:912-929 | on more than one rank an empty array cannot meet the sample assertion: there is no index to draw |
| `AllReduce.EachRankOnce` | include/ygm/detail/collective.hpp:187-200 | the implicit heap uses the value of every rank exactly once |
| `AllReduce.TreeIsFold` | include/ygm/detail/collective.hpp:191-200 | for an associative merge the tree is the fold in its own order |
| `AllReduce.TreeIsRankOrderFold` | include/ygm/detail/collective.hpp:186-210 | with commutativity it is the fold in rank order |
| `AllReduce.StepKeeps` | include/ygm/detail/collective.hpp:191-205 | each receive and send keeps: a rank holds the merge of what it received, a message is there exactly between send and receive |
| `AllReduce.SomeRankCanGoOn` | include/ygm/detail/collective.hpp:193-205 | until all ranks are finished one of them is not blocked |
| `AllReduce.Finishes` | include/ygm/detail/collective.hpp:186-210 | every schedule can be carried on to the end in a number of steps known in advance |
| `AllReduce.AllReduceFolds` | include/ygm/detail/collective.hpp:186-210 | under every schedule the result is the rank-order fold and no message is left over |
| `AllReduce.MergeChildren` | include/ygm/detail/collective.hpp:191-200 | overwriting each rank's value with its children's gives the tree value on every rank |
| `AllReduce.FoldPresent` | include/ygm/detail/collective.hpp:222-253 | the optional form folds the present values in rank order and is absent only if all are |
| `AllReduce.PresentKeepsLaws` | include/ygm/detail/collective.hpp:231-235 | skipping absent values keeps the merge associative and commutative |
| `TopK.BestAbsorbs` | include/ygm/container/detail/base_iteration.hpp:154-160 | cutting a part to its best k first does not change the best k of the whole |
| `TopK.MergeLaws` | include/ygm/container/detail/base_iteration.hpp:152-161 | the merge of lists is associative and commutative |
| `TopK.LocalTopK` | include/ygm/container/detail/base_iteration.hpp:140-146 | the push, sort and pop loop keeps the best k of the items seen |
| `TopK.MergeLists` | include/ygm/container/detail/base_iteration.hpp:154-160 | concatenate, sort and truncate in a loop is the merge |
| `TopK.GatherTopK` | include/ygm/container/detail/base_iteration.hpp:130-164 | the result is the best k of all items of all ranks |
| `TopK.BestAreBest` | include/ygm/container/detail/base_iteration.hpp:120-128 | the best k are sorted, as many as there can be, and no item left out comes before one of them |
| `CountingCache.TouchConserves` | include/ygm/container/counting_set.hpp:398-416 | a touched slot and what is sent account for one more of the key, and the slot stays within 1 to 2^31-2 |
| `CountingCache.InsertConserves` | include/ygm/container/counting_set.hpp:392-417 | an insert adds exactly one to its key over cache and sends, and a non-empty cache has a registered callback |
| `CountingCache.FlushConserves` | include/ygm/container/counting_set.hpp:441-447 | flushing all slots sends exactly what the cache held |
| `CountingCache.NextConserves` | include/ygm/container/counting_set.hpp:392-450 | every insert, arrival and flush keeps map + flight + caches, up to the insert itself |
| `CountingCache.CountsConserved` | include/ygm/container/counting_set.hpp:392-450 | in every run, for every key, map + flight + caches equal the inserts |
| `CountingCache.ExactAfterBarrier` | include/ygm/detail/comm.ipp:1020-1025 | with no callback registered and nothing in flight the map holds exactly the inserts |
| `CountingCache.FlushOff` | include/ygm/container/counting_set.hpp:425-436 | if handlers insert while a slot is flushed, how far off each key's count is |
| `CountingCache.SlotAfterClosed` | include/ygm/container/counting_set.hpp:398-416 | what a slot holds after any inserts: the equal keys at their end, counted modulo 2^31-1, with what the slot had of that key if no other came between |
| `CountingCache.FlushKeepsCountsIff` | include/ygm/container/counting_set.hpp:429-435 | all counts survive such a flush exactly when the keys that hit the slot meanwhile end in as many of its own key as it had counted (modulo 2^31-1; a multiple of it if no other key came): never when exactly one hits it |
| `CountingCache.SameAgainFew` | include/ygm/container/counting_set.hpp:429-435 | with fewer than 2^31-1 such keys that is: none hit the slot, or after another key its own came exactly as often again as it had been counted |
| `CountingCache.OneInsertLost` | include/ygm/container/counting_set.hpp:429-435 | the smallest case: three counted, one more inserted by a handler during the flush, and three are left |
| `CountingCache.PassedSlot` | include/ygm/container/counting_set.hpp:443-448 | a slot already passed by the flush of all slots ends with exactly the keys inserted there afterwards |
| `CountingCache.FinalSlot` | include/ygm/container/counting_set.hpp:443-448 | after the whole loop every slot holds exactly the keys inserted there after it was passed, and no callback was registered |
| `CountingCache.FlushAllEmptiesIff` | include/ygm/container/counting_set.hpp:441-450 | the cache is marked empty with one callback less; it is empty (below 2^31-1 inserts) exactly when no handler inserted a key whose slot had been passed |
| `CountingCache.OneKeyLeftBehind` | include/ygm/container/counting_set.hpp:441-450 | the smallest case: of two slots the second is flushed while a handler inserts a key of the first, which stays in a cache marked empty with no flush registered |
| `CountingSetObject.CountingSet.CacheInsert` | include/ygm/container/counting_set.hpp:392-417 | the method updates slots, flag and callbacks exactly as the specified insert |
| `CountingSetObject.CountingSet.CountCacheFlush` | include/ygm/container/counting_set.hpp:425-436 | one slot is sent and emptied |
| `CountingSetObject.CountingSet.CountCacheFlushAll` | include/ygm/container/counting_set.hpp:441-450 | the loop sends all occupied slots in order and marks the cache empty |
| `CountingSetObject.CountingSet.RunRegistered` | include/ygm/detail/comm.ipp:1020-1025 | a popped callback flushes the whole cache |

## Left out

- MPI itself, serialization, lambda registration and template dispatch: a message is a value of a
  datatype, and sizes in bytes are parameters.
- Interrupt masking, `local_progress` called by handlers, and handlers that re-enter while a message is
  sent, except in the counting cache, where they are the point.
- Wrap-around of the 64-bit message counters, rounding and tolerance checks in the alias table,
  the random draws of `async_sample`.
- CommObject.Comm.ProcessReceiveQueue: the branch for more than `num_isends_wait` pending sends and the
  other branch are one step that completes any number of sends and receives any number of buffers.
- CommObject.Comm.HandleNextReceive: `post_new_irecv` and the free list of buffers are not modelled.
- UnionRun.Run: a find for an item without an entry is not a step of these runs; what it leaves behind is
  the subject of `FindProtocol.FindKeepsForestIff`.
- Barrier.RunInv: `barrier` calls `priv_barrier` again until it was full; each call is a barrier of its own,
  and the model lets a rank do anything in between.
- LineParser.AssignChunks: one list of files over one list of ranks; the code runs it twice, once for files
  that all ranks see and once per node, on disjoint lists. Directory traversal and opening files are left out.
- AliasTable.BalanceWeight: the messages are delivered rank by rank; weights are sums, on which the order
  of arrival has no bearing.
- ArraySort.SortArray: one call with its own buffers; the static references shared by repeated
  calls are left out. Sorted pieces do not depend on the order of arrival (`Sorting.ArrivalOrder`).
- `bcast`, `is_same`, `min`, `max`, `sum` and the other reductions that call MPI directly.
- Copying, moving, swapping and clearing containers, iterators, the proxies of `filter`, `transform`
  and `flatten`, `reducing_adapter`, `bag::rebalance`, `cache_erase`, and everything under `experimental/`.
- The csv, ndjson, parquet and output writers: I/O around library calls.
