# Verified models of a Zerium node's core

This project models the core of the Zerium node, a Go implementation of an Ethereum-style
protocol, and proves what each of its components is for. Everything is plain Dafny; `dafny verify dfyconfig.toml`
checks the whole project. Code that changes fields step by step is modelled by classes, methods and
loops; their contracts tie the new state to functions and predicates about which lemmas are proved.

| module | component |
|---|---|
| `Shared` | an optional value, the status of a write, and the switch of closed predicates |
| `Bmt` | the recursive reference hasher of the binary Merkle tree |
| `HasherTree`, `HasherInvariant`, `HasherPhases`, `HasherRound`, `Hasher` | the concurrent Merkle hasher: goroutine steps, invariants under every schedule, marking and handing over segments, whole rounds, the `Hasher` class |
| `HeaderChain` | header writes, chain imports and rollbacks over a header tree and its number index |
| `BlockChain` | block writes, fork choice, reorganisation, number index and transaction index |
| `Heap`, `TxList`, `PricedList` | the pool's nonce-sorted maps, lists with caps, and lazily cleaned price heap |
| `Sums`, `PoolState`, `PoolLists`, `PoolKnown`, `TxPool` | the transaction pool: invariants over plain values, what promotion and the limits do to all lists and to the known transactions, and the `TxPool` class |
| `PoolReorg`, `PoolReset` | the reset after a reorganisation that gives transactions back, for one account: its lists, and all of it to the end |
| `Feed` | one-to-many delivery with removals during a send |
| `WeightedSelect`, `Distributor` | the 8-ary weighted selector and the request scheduler on top of it |
| `ChainIndexer` | background section processing, and clearing without the lock, against notifications |
| `Gas` | gas purchase, refund and block gas |

## Main results

- **Merkle hasher.** For every segment count, every split into `Write` calls of an input of at most `count * size`
  bytes (of any length, if the count is even) and every interleaving of the spawned goroutines, `Sum` returns the
  reference hash (`Hasher.HashParts`, `HasherRound.EverySchedule`). In every schedule exactly one result comes out, no
  schedule gets stuck, every step uses up work, and when the result is out every node with two inputs has been hashed
  exactly once. The base hash is an arbitrary function.
- **Tree reuse.** A released tree is as good as new if and only if no toggle counter has wrapped
  (`HasherRound.Restores`, `HasherRound.RestoredNoneWrapped`). The counter is an `int32` and Go's remainder
  of a negative number is negative, so after a wrap the first arriver at a node no longer waits
  (`HasherTree.FirstArriverWaits`, `HasherRound.WrappedCounterEmitsEarly`); since a round
  toggles a counter at most twice (`HasherRound.RootedWear`), that takes about 2^30 rounds of one tree.
- **Over-long writes.** `Write` computes what it needs without the bytes already held. It cuts at the
  capacity, as the reference does, exactly under the condition of `Hasher.CutAtCapacity`; otherwise it keeps
  too much, and the next `Write` panics on a negative slice bound (`Hasher.OverlongWrite`, `Hasher.Hasher.Write`).
  A second `Reset` without a `Sum` keeps the bytes already written (`Hasher.Hasher.Reset`).
- **Canonical chain.** Over every run of header writes, imports and rollbacks the number index is a parent-linked
  prefix that contains the head. An import stops at the first interruption or refusal, records exactly the headers before
  it, and elects the head by weight and coins (`HeaderChain.HeaderChain.InsertHeaderChain`). A rollback takes the head back
  over exactly the longest stretch of its ancestry that occurs in order among the given hashes
  (`HeaderChain.HeaderChain.Rollback`). After every block write the number index up to the head is the head's ancestry,
  each stored total difficulty is the sum of the difficulties back to genesis, and that of the head is the maximum over
  all stored blocks, whatever the coin tosses; among the heaviest the head is one with the lowest number
  (`BlockChain.BlockChain.WriteBlockAndState`, `BlockChain.Run`, `BlockChain.TdIsSum`, `BlockChain.LowestKept`).
- **Transaction index.** Moving the index to a new branch writes its blocks newest first and then deletes what only the
  old branch had. This gives the plain scan of the new chain if and only if no transaction is in two blocks of the new
  branch, and none from below the fork is in the old branch but not in the new one (`BlockChain.IndexMoves`, for all
  chains; `BlockChain.HeadMoves` with the last write, which repairs the head's own transactions). A write that becomes
  canonical keeps the index in step exactly then (`BlockChain.BlockChain.WriteBlockAndState`). Chains without replayed
  transactions always meet the condition (`BlockChain.ReplayFreeTurn`). A block with a replay fails on the
  sender's nonce when it is processed (`Gas.StateTransition.PreCheck`), so no import hands one to `WriteBlockAndState`;
  the method itself does not check.
- **Lagging header head.** Since the branch is inserted newest first and the last insert finds its block canonical
  already, the head of headers after a reorganisation is the lowest block of the new branch, and so the new head if and
  only if the new branch is one block long (`BlockChain.HeaderLags`, `BlockChain.LowestIsLast`).
- **Transaction pool.** In every reachable state (`TxPool.Run`) each account's pending nonces are exactly those
  from the state nonce up to the pending nonce, no queued nonce is among them, no executable transaction waits in
  the queue, every listed transaction is in `all`, the price heap covers `all` and was told of everything that came
  and went, and every transaction pays the floor or has a local sender. Heads may move any account nonce forward or
  back. What is taken in, with or without room, what leaves for it, and what promotion and the limits then make of all
  lists is specified exactly
  (`TxPool.TxPool.AddTx`, `TxPool.TxPool.AddTxs`, `TxPool.TxPool.PromoteExecutables`, `TxPool.TxPool.LimitQueue`,
  `TxPool.TxPool.Reset`), and every run is a trace of such steps.
- **Known transactions.** A new head forgets exactly the pending transactions that the chain has passed, or that their
  sender cannot pay for or no block can hold (`TxPool.TxPool.Advance`). Promotion, the limits and evictions forget exactly
  what leaves the lists: nothing else leaves `all`, and nothing that has left the lists stays
  (`TxPool.TxPool.PromoteExecutables`, `TxPool.TxPool.Evict`, `PoolKnown.ForgetsExactly`).
- **Reinjection.** When a reorganisation also gives transactions back, they are taken in and promoted before the pending
  lists are checked, with the pending nonces of the new head. At the end of the reset an account of any sound pool is
  in order, whatever is taken in, leaves to make room, or is cut by the limits, under exactly this condition
  (`PoolReset.ResetInOrder`). If its nonce has gone back below its pending list: nothing is promoted at the state nonce;
  or the promoted run reaches the old list; or nothing was pending; or the first cut leaves no more than the run, or the
  last one less; or the first of the old pending transactions is over a limit. Otherwise: no transaction that the chain
  has passed left early, neither for another one nor by the first cut. `PoolReset.ReorgGap` is a sound pool with a batch
  on which a gap stays; `PoolReset.EarlyLoss` is one on which the pending nonce stays below that of the chain, and an
  executable transaction stays queued. In every case the lists hold the account's own known transactions, each once,
  and the price floor holds (`PoolReset.ChangedSurvives`, `PoolReset.EndListed`); the heap covers `all` whatever is in
  the lists (`PricedList.PricedList.Put`, `PricedList.PricedList.Removed`).
- **Fairness.** The equaliser computes the highest common level, not below the guaranteed slots, at which
  the pending lists fit; every longer list that is not local is cut to exactly that level, others are untouched
  (`TxPool.TxPool.Equalise`, `PoolState.HigherOverfull`, `PoolState.EqualisedFair`).
- **Removal by nonce.** Lists are cut by nonce, so removing a transaction that is in no list any more takes another one
  with its nonce along. When exactly a removal unhooks nothing but its own transaction is stated by
  `PoolState.UnhooksQueued` and `PoolState.UnhooksPending`. `TxPool.UnhooksOther` goes from two pending transactions,
  over two raises of the price floor with an addition between them, to a pool that knows a transaction which is in no
  list, although it pays the floor and nothing removed it.
- **Event feed.** What a send does is a trace of channel operations, removals received, and subscriptions that join or are
  cancelled meanwhile. Whatever the channels do, every channel is sent the value exactly as often as it was subscribed at
  the start, less the removals that came while it was still waiting, and the returned count is the number of sends. After
  it every channel is subscribed as often as at the start, plus joins, less cancellations and removals; those that joined
  wait for the next send (`Feed.Feed.Send`). A channel with one subscription gets the value once and before any removal of
  it, or not at all and was removed (`Feed.OnceOrRemoved`).
- **Weighted selection.** Every sum in the tree is exact, an item sits in exactly one slot, and a draw picks the
  one slot whose interval of cumulative weight contains it.
- **Request scheduling.** A peer is only ever given the oldest request it can serve, the wait is the least
  possible, and a request is dropped only if no registered peer can take it.
- **Chain indexer.** When the backend refuses to start, the index is cleared without the lock. So runs interleave the
  steps of the update loop, of the clearing and of notifications that hold the lock; every load, store and deletion of
  clearing and notification is a step of its own. In every run every recorded head hangs through exactly
  `sectionSize` parent-linked headers on the recorded head before it; or was in the database at the start; or came by a
  checkpoint of the run; or is about to be deleted; or was left behind when one thread stored a lower count before the
  other, which had counted the section out, looked which section to delete (`ChainIndexer.EveryRun`,
  `ChainIndexer.Run`). Once clearing and notifications are done, the index is coherent — one count in memory and
  database, no head at or above it — if and only if the last count written to the database is the last one assigned in
  memory, and no head left behind is still there (`ChainIndexer.RestCoherent`). From a coherent start
  it is coherent whenever nothing is under way, unless at some point a clearing and a notification were under way at once
  (`ChainIndexer.CoherentRun`). Runs of the class that go wrong: `ChainIndexer.CheckpointAtEnd`, `ChainIndexer.CheckpointInLoop`, `ChainIndexer.ReorgInLoop`,
  `ChainIndexer.ReorgStrands`, `ChainIndexer.ClearStrands`, and `ChainIndexer.ClearedInside`, which ends coherent but
  counts a section that is gone.
- **Confirmed sections.** In every run a section that the update loop takes up was confirmed by a head, and no
  reorganisation since then reached into it or below (`ChainIndexer.TakenUp`). After a failed section nothing is taken up
  before the next head (`ChainIndexer.NoneTaken`).
- **Unnoticed reorganisation.** A section whose headers have been read is recorded in spite of a reorganisation if and
  only if that reaches back no further than into the section itself (`ChainIndexer.ChainIndexer.ReorgInside`), although
  the source's comment at the commit says that no reorganisation occurred.
- **Gas.** An applied message is charged for the gas it required less all of its refund, if that is at most half of it,
  and else less half. Exactly the charge moves from the sender to the coinbase, nobody else is touched, and the supply is
  kept (`Gas.StateTransition.TransitionDb`). A refused message names the first check that fails and gives nothing back. A
  block is the replay of its messages, and its used gas and gas pool always add up to the limit (`Gas.Process`).

Some predicates are written in a closed form, `forall k {:trigger Opened(k)} :: Sealed(k) ==> P`: it is the same as
`P`, since `Opened` and `Sealed` are true, but unfolds only where `Opened` is asserted. A contract clause
`P == true` is the same as `P`.

## Model

| member | source | states |
|---|---|---|
| `Bmt.RefHasher.constructor` | merkletree/merkletree_r.go:39-55 | the doubling loop and the step back give the span that is below the capacity and at least half of it, or that of two segments |
| `Bmt.RefHasher.Hash` | merkletree/merkletree_r.go:59-65 | returns the recursive BMT hash of the chunk, of which everything beyond `count * size` bytes is ignored |
| `Bmt.RefHasher.HashSpan` | merkletree/merkletree_r.go:67-85 | halving the span from any start that is large enough finds the same cut, so the result is the recursive BMT hash |
| `Bmt.Span` | merkletree/merkletree_r.go:72-74 | the cut of a chunk is below its length and at least half of it |
| `Bmt.SpanUnique` | merkletree/merkletree_r.go:72-74 | that cut is unique, whatever span the search starts from |
| `HasherTree.FirstArriverWaits` | merkletree/merkletree.go:506-511 | with an even counter the first toggler waits if and only if the counter is not negative, and then the second one does not and the counter is even again |
| `HasherTree.ActUsesWork` | merkletree/merkletree.go:463-494 | every action of every goroutine lowers the remaining work, so every schedule ends |
| `HasherTree.ClimbsAtStore` | merkletree/merkletree.go:490-493 | a goroutine that leaves a node for its parent next stores its value there |
| `HasherInvariant.OutIsRoot` | merkletree/merkletree.go:463-494 | the value a tree of any height sends up for its data is the reference hash, however much of the tree is unused |
| `HasherInvariant.ValueIsRoot` | merkletree/merkletree.go:463-494 | the value at the root, also for a single segment, is the reference hash |
| `HasherInvariant.IdleStays` | merkletree/merkletree.go:463-494 | in a subtree without data nothing can move |
| `HasherInvariant.ClosedStep` | merkletree/merkletree.go:463-494 | whatever goroutine moves, a subtree that has all its data keeps its invariant: each two-input node is hashed by its second arriver with both inputs set, and its one value leaves once |
| `HasherInvariant.OneInputHere` | merkletree/merkletree.go:471-482 | at a node marked as unbalanced that is not the root the left value passes on unchanged, and once |
| `HasherInvariant.TwoInputHereL` | merkletree/merkletree.go:465-488 | at a two-input node the left goroutine waits if it is first and hashes both inputs if it is second |
| `HasherInvariant.TwoInputHereR` | merkletree/merkletree.go:465-488 | the same for the right goroutine |
| `HasherPhases.OpenStep` | merkletree/merkletree.go:334-373 | while the last segment is still to come no step produces a result or touches the marks on its way |
| `HasherPhases.LaunchCloses` | merkletree/merkletree.go:442-461 | handing the last segment to a properly marked subtree gives it all its data |
| `HasherPhases.LaunchOpens` | merkletree/merkletree.go:358-368 | handing over a full segment leaves the tree waiting for the next leaf |
| `HasherPhases.BlankStep` | merkletree/merkletree.go:463-494 | no step sets a mark on the way from the open leaf |
| `HasherPhases.TrailShape` | merkletree/merkletree.go:253-276 | the way from a leaf to the top has one node per level, each the parent of the one before |
| `HasherPhases.MarkTrail` | merkletree/merkletree.go:530-547 | one iteration of finalise changes the marks of exactly one node on the way |
| `HasherPhases.MarkKeepsOpen` | merkletree/merkletree.go:530-547 | marking may happen while goroutines run |
| `HasherRound.RootedStep` | merkletree/merkletree.go:463-494 | every step of a tree with all its data: no result but the reference hash, and none after the first |
| `HasherRound.Progress` | merkletree/merkletree.go:463-494 | until the result is out some goroutine can move |
| `HasherRound.EverySchedule` | merkletree/merkletree.go:463-511 | every schedule yields at most one result, the reference hash; a schedule that has come to rest has yielded it, and then every node with two inputs has been hashed exactly once and no other at all |
| `HasherRound.RootedHashedOnce` | merkletree/merkletree.go:463-494 | once the result is out, every two-input node below the root has been hashed exactly once, and one-input nodes not at all |
| `HasherRound.FinalLaunch` | merkletree/merkletree.go:293-306 | after finalise the last segment leaves a tree whose marked node will produce the result |
| `HasherRound.Restores` | merkletree/merkletree.go:425-440 | after the result a released tree is as good as new: even counters, no marks but the top root, provided no counter wrapped |
| `HasherRound.RestoredNoneWrapped` | merkletree/merkletree.go:425-440 | conversely a tree with a wrapped counter is not as good as new |
| `HasherRound.RootedWear` | merkletree/merkletree.go:506-511 | a round adds at most two to any counter, so none wraps before it is within two of the int32 limit |
| `HasherRound.WrappedCounterEmitsEarly` | merkletree/merkletree.go:463-511 | with a wrapped counter the left input alone produces a result, from whatever was left on the right |
| `Hasher.Depth` | merkletree/merkletree.go:521-526 | the height is the least whose leaves hold the segments, two each |
| `Hasher.NewTreeIdle` | merkletree/merkletree.go:253-276 | a new subtree is idle and its counters are zero |
| `Hasher.NewRootIdle` | merkletree/merkletree.go:253-276 | a new tree is as good as new in the sense of the release |
| `Hasher.WideEnough` | merkletree/merkletree.go:253-276 | the tree has room for every segment |
| `Hasher.LeafNumber` | merkletree/merkletree.go:442-444 | the leaf that follows `m` full leaves is leaf number `m` |
| `Hasher.Hasher.constructor` | merkletree/merkletree.go:90-99 | a new hasher is ready for a chunk |
| `Hasher.Hasher.Reset` | merkletree/merkletree.go:407-410 | a first call reserves a tree and starts an empty chunk; a second one keeps tree and bytes and only forgets the length prefix |
| `Hasher.Hasher.ResetWithLength` | merkletree/merkletree.go:417-421 | the same with a length prefix |
| `Hasher.Hasher.Interleave` | merkletree/merkletree.go:442-494 | any steps of the goroutines between two steps of the writer keep its state |
| `Hasher.Hasher.WriteSegment` | merkletree/merkletree.go:442-461 | spawns the goroutine of a full segment |
| `Hasher.Cut` | merkletree/merkletree.go:335-356 | how many bytes of a write go into the open segment, and when the slice bound is negative |
| `Hasher.Hasher.Write` | merkletree/merkletree.go:334-373 | takes exactly the computed number of bytes and appends them to what the chunk holds; panics if and only if more than the capacity is already held; an empty write does nothing |
| `Hasher.Hasher.Take` | merkletree/merkletree.go:345-370 | once the needed number of bytes is known: exactly the bytes up to the end of the segments are appended |
| `Hasher.Hasher.HandOver` | merkletree/merkletree.go:357-370 | the loop hands over full segments while more bytes follow |
| `Hasher.CutAtCapacity` | merkletree/merkletree.go:342-356 | a write cuts at the capacity if and only if the segment count is even, nothing is held, the open leaf is the last, or the write does not overflow |
| `Hasher.OverlongWrite` | merkletree/merkletree.go:342-356 | with three one-byte segments, a write of one byte and one of three leave four bytes |
| `Hasher.Hasher.MarkHeight` | merkletree/merkletree.go:530-547 | one iteration of finalise |
| `Hasher.Hasher.Finalise` | merkletree/merkletree.go:530-547 | marks the way up to the first leftmost node, as left or right according to where the way enters, and returns its distance |
| `Hasher.Hasher.HandOverLast` | merkletree/merkletree.go:305-306 | spawns the goroutine of the last segment, full, half or empty |
| `Hasher.Hasher.Await` | merkletree/merkletree.go:307-307 | whatever the schedule, the result arrives and is the reference hash |
| `Hasher.Hasher.Move` | merkletree/merkletree.go:463-494 | one step of any goroutine that can move, with the work it uses up |
| `Hasher.Hasher.ReleaseTree` | merkletree/merkletree.go:425-440 | the hasher is ready again, unless a counter may have wrapped |
| `Hasher.Hasher.Sum` | merkletree/merkletree.go:293-319 | returns the reference hash of everything written, prefixed and hashed again when a length was given, and leaves the hasher ready |
| `Hasher.WriteParts` | merkletree/merkletree.go:334-373 | an input of at most the capacity in any parts, and with an even segment count any input at all, is held up to the capacity |
| `Hasher.HashParts` | merkletree/merkletree.go:293-373 | the end-to-end statement: for such inputs in any parts and under any schedule the result is that of the reference hasher, and the hasher is ready for the next chunk |
| `HeaderChain.TdIsSum` | core/headerchain.go:137-149 | a stored total difficulty is the sum of difficulties back to genesis |
| `HeaderChain.IndexIsAncestry` | core/headerchain.go:152-185 | the index up to any entry is the way from that entry back to genesis |
| `HeaderChain.HeaderChain.constructor` | core/headerchain.go:71-108 | a chain that holds genesis only |
| `HeaderChain.HeaderChain.DeleteAbove` | core/headerchain.go:154-161 | deletes exactly the entries above the new head, up to the first gap, and terminates |
| `HeaderChain.HeaderChain.Reroute` | core/headerchain.go:162-176 | walks back and overwrites until the index agrees; for any fork shape the entries up to the head become its ancestry |
| `HeaderChain.HeaderChain.MakeHead` | core/headerchain.go:152-185 | the index becomes exactly the ancestry of the new head |
| `HeaderChain.HeaderChain.WriteHeader` | core/headerchain.go:131-195 | refused if and only if the parent is unknown; becomes the head if and only if it is heavier or equal with the coin; the index stays a parent-linked prefix with the head in it; a head that was the heaviest recorded header is so again |
| `HeaderChain.HeaderChain.InsertOne` | core/headerchain.go:268-281 | a known header is skipped and changes nothing, any other is written, and becomes the head exactly if it wins |
| `HeaderChain.HeaderChain.InsertHeaderChain` | core/headerchain.go:259-285 | stops at the first interruption or refusal and returns its position; exactly the headers before it are recorded; the head is what it was or a new header that no later one beats and that beat all before it; a linked chain that attaches is never refused |
| `HeaderChain.ImportedNext` | core/headerchain.go:264-281 | one more header is recorded |
| `HeaderChain.ElectedStays` | core/headerchain.go:149-192 | a header that is known or does not win leaves the head |
| `HeaderChain.ElectedTakes` | core/headerchain.go:149-192 | one that wins has beaten the head before the import and every new header before it |
| `HeaderChain.ImportLinked` | core/headerchain.go:259-285 | the next header of a linked chain that attaches is known or attaches |
| `HeaderChain.ValidateLinks` | core/headerchain.go:204-215 | accepts exactly the chains whose headers are numbered and parent-linked in sequence |
| `HeaderChain.HeaderChain.Rollback` | core/blockchain.go:640-650 | the head goes back over exactly the longest stretch of its ancestry that occurs in order among the hashes; it stays if it is not among them; the last k headers in order take it back by k; it fails exactly if all of the ancestry occurs |
| `HeaderChain.GoesBack` | core/blockchain.go:644-649 | one hash takes the head one back exactly if it is that of the head |
| `HeaderChain.GoneRecent` | core/blockchain.go:640-650 | hashes without the head take nothing back, and the last headers in order exactly themselves |
| `HeaderChain.Do` | core/headerchain.go:131-285 | one write, import or rollback does what it promises and keeps the invariant; without a rollback the head stays the heaviest and its difficulty does not drop |
| `HeaderChain.Run` | core/headerchain.go:131-285 | every run of writes, imports and rollbacks is a trace of such steps and keeps the invariant; without rollbacks the head stays the heaviest and its difficulty never drops |
| `BlockChain.ChainKept` | core/blockchain.go:541-553 | storing a block changes no whole chain |
| `BlockChain.FindCommonAncestor` | core/database_util.go:608-632 | returns the highest common ancestor, or none exactly when there is none |
| `BlockChain.Lower` | core/blockchain.go:1092-1101 | walks the longer old chain back to the number of the other |
| `BlockChain.TryLower` | core/blockchain.go:1102-1107 | walks the longer new chain back, or fails where it breaks off |
| `BlockChain.Split` | core/blockchain.go:1092-1128 | succeeds exactly when the chains meet; then both collected branches hang on the common ancestor and differ right above it |
| `BlockChain.Meet` | core/blockchain.go:1114-1128 | the loop that steps both chains back until they meet |
| `BlockChain.IndexMoves` | core/blockchain.go:1139-1160 | for any common part, old and new branch: writing the new branch newest first and deleting what only the old one had gives the plain scan of the new chain if and only if no transaction is in two blocks of the new branch, and none is below the fork and in the old branch but not in the new one |
| `BlockChain.MovedEntry` | core/blockchain.go:1139-1160 | what becomes of each transaction: its entry in the lowest block of the new branch, none if only the old branch has it, else the one from below the fork |
| `BlockChain.HeadMoves` | core/blockchain.go:827-852 | the same condition with the head written once more at the end, which repairs exactly the transactions of the head |
| `BlockChain.ReplayFreeClean` | core/blockchain.go:1139-1160 | chains without replays meet the condition |
| `BlockChain.ReplayLosesEntry` | core/blockchain.go:1150-1160 | every transaction below the fork that only the old branch repeats loses its entry |
| `BlockChain.NumbersMove` | core/blockchain.go:1145-1147 | inserting the new branch newest first makes the number index canonical for the new chain |
| `BlockChain.ScanIsIndex` | core/database_util.go:464-481 | the index is the scan: an entry for a transaction if and only if it is in the chain, with its position |
| `BlockChain.CanonicalNext` | core/blockchain.go:455-477 | inserting the head makes the number index that of the chain with it, whether it had it before or not |
| `BlockChain.TurnedScan` | core/blockchain.go:827-852 | when the chain of the head changes, an index that was the scan of the old chain becomes that of the new one if and only if nothing is replayed across the fork |
| `BlockChain.ReplayFreeTurn` | core/blockchain.go:827-852 | which is so if neither chain replays anything |
| `BlockChain.LowestIsLast` | core/blockchain.go:1145-1147 | inserting a branch newest first leaves the other heads at its newest block if and only if all below was canonical already and that block was not, or was the head before |
| `BlockChain.HeaderLags` | core/blockchain.go:827-852 | after a reorganisation the head of headers is the lowest block of the new branch, and the new head exactly if the branch has one block |
| `BlockChain.TdIsSum` | core/blockchain.go:790-805 | a recorded total difficulty is the sum of the difficulties of the way back to genesis |
| `BlockChain.BlockChain.constructor` | core/blockchain.go:395-418 | a chain that holds genesis only |
| `BlockChain.BlockChain.Insert` | core/blockchain.go:455-477 | one index entry and the head change; the other heads follow only if the block was not canonical yet |
| `BlockChain.BlockChain.WriteTxLookupEntries` | core/database_util.go:464-481 | the entries of one block, in order |
| `BlockChain.BlockChain.Rewrite` | core/blockchain.go:1139-1160 | the second half of a reorganisation: number index, lookup index and all three heads as functions of both branches |
| `BlockChain.BlockChain.DeleteTxLookups` | core/blockchain.go:1150-1160 | removes exactly the deleted transactions that were not added again |
| `BlockChain.BlockChain.Reorg` | core/blockchain.go:1068-1174 | succeeds exactly when the chains meet; then the number index is that of the new chain, the lookup index is moved from the one branch to the other, and the other heads are at the lowest block that moved; otherwise nothing changes |
| `BlockChain.BlockChain.Adopt` | core/blockchain.go:833-852 | the block is stored as the head, the number index is that of its chain, and its transactions are indexed |
| `BlockChain.BlockChain.BecomeHead` | core/blockchain.go:826-852 | the block becomes the head exactly when its chain joins that of genesis, and then lookup index and other heads are as the two chains determine |
| `BlockChain.BlockChain.TurnTo` | core/blockchain.go:827-852 | the same when a reorganisation is needed |
| `BlockChain.BlockChain.Extend` | core/blockchain.go:833-852 | the same when the block extends the head |
| `BlockChain.Weigh` | core/blockchain.go:790-825 | once a recorded block is stored, the heavier of it and the head is the heaviest stored block |
| `BlockChain.BlockChain.WriteTd` | core/blockchain.go:790-805 | records parent difficulty plus own difficulty |
| `BlockChain.BlockChain.Choose` | core/blockchain.go:818-854 | the block becomes the head if and only if it wins and its chain reaches genesis; it is a side block if and only if it does not win |
| `BlockChain.BlockChain.SetAside` | core/blockchain.go:842-848 | a block that does not win is stored and changes no chain |
| `BlockChain.BlockChain.WriteBlockAndState` | core/blockchain.go:786-855 | exact status, the head, the number index equal to a walk from the head back to genesis, exact difficulties, a head that is the heaviest of all stored blocks, all three heads, and a lookup index that stays the scan of the chain exactly if the write replays nothing across the fork |
| `BlockChain.BlockChain.WriteAttached` | core/blockchain.go:794-854 | the same for a block whose parent difficulty is known |
| `BlockChain.LowestKept` | core/blockchain.go:823-841 | on a tie the lower number wins: among the heaviest stored blocks the head is one with the lowest number |
| `BlockChain.WriteNext` | core/blockchain.go:786-855 | one write is one step of that function, and keeps the lookup index the scan if no chain replays |
| `BlockChain.Run` | core/blockchain.go:786-855 | every run of block writes ends in the state that the blocks and coins determine, and keeps the invariant; the weight of the head never drops, and the head keeps the lowest number among the heaviest; without replays in any chain the lookup index is always the scan |
| `Feed.Find` | event/feed.go:207-217 | the first case with the channel, or -1 exactly if there is none |
| `Feed.DeleteOne` | event/feed.go:219-222 | deletion removes exactly one case |
| `Feed.DeactivateOne` | event/feed.go:224-229 | deactivation permutes the cases and shortens the active prefix by exactly the given one |
| `Feed.Feed.constructor` | event/feed.go:61-67 | a feed without subscriptions |
| `Feed.Feed.Subscribe` | event/feed.go:73-93 | adds one subscription, which waits for the next send |
| `Feed.Feed.Remove` | event/feed.go:104-125 | removes exactly one subscription, from the inbox if it is there, else from the cases |
| `Feed.Feed.Cancel` | event/feed.go:104-114 | takes one subscription out of the inbox exactly if there is one |
| `Feed.Channels.TrySend` | event/feed.go:158-158 | a try adds one send to the trace exactly if it succeeds, and else is a refusal |
| `Feed.Channels.Select` | event/feed.go:168-168 | a wait, for channels that have just refused a try, ends with one send on one of the cases, or with one removal received |
| `Feed.Channels.Arrive` | event/feed.go:73-114 | during a send a goroutine subscribes, or cancels a subscription that is still in the inbox |
| `Feed.Feed.TrySends` | event/feed.go:157-163 | the non-blocking pass keeps the active cases a prefix of what is still to be sent to, and counts its sends; every case that is left has refused |
| `Feed.Feed.Deliver` | event/feed.go:158-161 | after a send exactly that case has moved behind the active prefix |
| `Feed.Feed.Received` | event/feed.go:169-174 | after a removal during a send the cases match the trace again; the list shrinks |
| `Feed.Feed.Newcomers` | event/feed.go:73-114 | the inbox holds exactly the subscriptions that joined during the send and were not cancelled |
| `Feed.Feed.SelectOne` | event/feed.go:168-179 | one wait adds one send or removal to the trace |
| `Feed.NewlyCounts` | event/feed.go:73-114 | of those that joined exactly the cancelled ones are gone |
| `Feed.Delivers` | event/feed.go:157-163 | a send keeps cases and trace in step: the active cases are those still waiting, the others those served |
| `Feed.Removes` | event/feed.go:168-174 | a removal keeps them in step: a waiting channel is skipped for good, one already served leaves |
| `Feed.AllAccounted` | event/feed.go:129-187 | at every point of every trace a channel is waiting, served, skipped or removed later as often as it was subscribed |
| `Feed.SentOrRemoved` | event/feed.go:129-187 | once nobody waits, sends and removals while waiting add up to the subscriptions of each channel; without removals it gets the value once for each |
| `Feed.OnceOrRemoved` | event/feed.go:129-187 | a channel with one subscription gets the value once, before any removal of it, or never and was removed |
| `Feed.Feed.Send` | event/feed.go:129-187 | for every choice of ready channels, removals and newcomers: the events added by the call are a proper trace with nobody left waiting; per channel, sends and removals before the send add up to the subscriptions at the start; the count is the number of sends; the cases are the subscriptions at the start less all removals, and the inbox the joins less the cancellations |
| `WeightedSelect.OwnerUnique` | lzrm/randselect.go:159-173 | the weight intervals of different slots are disjoint |
| `WeightedSelect.OwnedDraws` | lzrm/randselect.go:159-173 | an occupied slot owns an interval of its weight within the total, and a free slot owns nothing |
| `WeightedSelect.NewNode` | lzrm/randselect.go:124-124 | a new node is empty and exact |
| `WeightedSelect.FindBranch` | lzrm/randselect.go:107-114 | the search skips exactly the full branches and finds one with room, so the panic is unreachable |
| `WeightedSelect.SkipsFull` | lzrm/randselect.go:109-109 | the test by which a branch is skipped holds exactly for full branches |
| `WeightedSelect.Insert` | lzrm/randselect.go:106-132 | takes the first free slot and changes nothing else; all sums and counters stay exact |
| `WeightedSelect.SetNodeWeight` | lzrm/randselect.go:134-157 | changes exactly one slot, or frees it, and returns the change of weight; all sums and counters stay exact |
| `WeightedSelect.Locate` | lzrm/randselect.go:148-150 | the division finds the branch and the index below it |
| `WeightedSelect.ChooseNode` | lzrm/randselect.go:159-173 | a draw below the total finds the slot whose cumulative interval contains it; the panic is unreachable |
| `WeightedSelect.Grown` | lzrm/randselect.go:63-69 | a new root keeps every slot in its place and adds free ones behind |
| `WeightedSelect.WeightedRandomSelect.constructor` | lzrm/randselect.go:37-40 | an empty selector |
| `WeightedSelect.WeightedRandomSelect.SetWeight` | lzrm/randselect.go:53-73 | sets, adds or removes one item; map and slots stay a bijection, also across root growth; the total moves by the difference |
| `WeightedSelect.WeightedRandomSelect.MakeRoom` | lzrm/randselect.go:63-69 | a full tree grows without a change to its contents |
| `WeightedSelect.WeightedRandomSelect.Weightless` | lzrm/randselect.go:81-83 | no weight means no items, and the other way round |
| `WeightedSelect.WeightedRandomSelect.Draw` | lzrm/randselect.go:84-85 | one draw picks the item that owns it |
| `WeightedSelect.WeightedRandomSelect.Choose` | lzrm/randselect.go:75-94 | terminates; returns nothing exactly if nothing is left; what it returns is stored with its present weight; every other item keeps its weight, is lowered to its present one, or left because that is zero |
| `Heap.RootIsLeast` | core/tx_list.go:32-48 | the first element of a heap is a least one |
| `Heap.Push` | core/tx_list.go:38-40 | adds one element and stays a heap |
| `Heap.Pop` | core/tx_list.go:42-48 | takes out the first element, which is a least one, and stays a heap |
| `Heap.Remove` | core/tx_list.go:159-164 | takes out the element at a position and stays a heap |
| `Heap.Init` | core/tx_list.go:113-119 | makes a heap of the same elements |
| `Heap.Sort` | core/tx_list.go:135-135 | sorts, as a permutation |
| `TxList.SortedUnique` | core/tx_list.go:200-216 | the nonce-sorted contents are unique, so the cache can only be one slice |
| `TxList.SortedMap.constructor` | core/tx_list.go:59-64 | an empty map |
| `TxList.SortedMap.Put` | core/tx_list.go:71-79 | one entry changes; the heap holds exactly the nonces; the cache is dropped |
| `TxList.SortedMap.Forward` | core/tx_list.go:81-98 | removes exactly the nonces below the threshold and returns them in order; the shifted cache is the sorted rest |
| `TxList.SortedMap.Filter` | core/tx_list.go:100-123 | removes exactly what the test picks and lists each once; heap and cache match what is left |
| `TxList.SortedMap.Cap` | core/tx_list.go:125-148 | keeps the lowest nonces, as many as allowed, and returns each of the others once; the trimmed cache is the sorted rest |
| `TxList.SortedMap.Remove` | core/tx_list.go:150-169 | removes one nonce and reports whether it was there |
| `TxList.SortedMap.Ready` | core/tx_list.go:171-193 | returns nothing if every nonce is above the start, else the maximal consecutive run from the least nonce, and removes exactly that |
| `TxList.SortedMap.Flatten` | core/tx_list.go:200-216 | returns the nonce-sorted contents and caches them |
| `TxList.List.constructor` | core/tx_list.go:230-239 | an empty list with zero caps |
| `TxList.List.Add` | core/tx_list.go:247-273 | a taken nonce changes hands if and only if the new price is higher and reaches the bump; the caps are raised to the new transaction and still bound everything |
| `TxList.OutbidsBump` | core/tx_list.go:252-258 | the bump in terms of the raise: at least the given percentage of the old price, rounded down |
| `TxList.List.Filter` | core/tx_list.go:282-315 | with or without the short cut by caps: removes exactly what exceeds a limit and, in a strict list, what lies above the lowest removed nonce; both are listed once; the caps become the limits unless they were below |
| `TxList.List.Forward` | core/tx_list.go:275-280 | removes exactly the nonces below the threshold; the caps still bound the rest |
| `TxList.List.Cap` | core/tx_list.go:317-321 | keeps the lowest nonces, as many as allowed; the caps still bound them |
| `TxList.List.Ready` | core/tx_list.go:339-348 | gives up exactly the run that is ready; the caps still bound the rest |
| `TxList.List.Flatten` | core/tx_list.go:360-365 | lists the contents in the order of their nonces |
| `TxList.List.Remove` | core/tx_list.go:323-337 | removes by nonce; a strict list also gives up everything above |
| `TxList.FilterPartition` | core/tx_list.go:291-315 | kept, removed and invalidated transactions partition the old contents |
| `TxList.AffordablePrefix` | core/tx_list.go:302-314 | on a contiguous strict list the filter leaves a contiguous prefix that ends at the first transaction over a limit |
| `TxList.AllAffordable` | core/tx_list.go:292-295 | under the caps the full scan would remove nothing |
| `TxList.LowestStrands` | core/tx_list.go:302-313 | what lies above the lowest removed nonce is exactly what has a removed transaction below it |
| `TxList.CappedContiguous` | core/tx_list.go:125-148 | capping a contiguous list leaves its first nonces |
| `PricedList.PricedList.constructor` | core/tx_list.go:395-401 | an empty index |
| `PricedList.PricedList.Put` | core/tx_list.go:403-406 | the heap has exactly one entry more |
| `PricedList.PricedList.Removed` | core/tx_list.go:408-425 | the counter goes up, or with more than a quarter stale the heap is exactly all transactions once and the counter zero; every live transaction is covered |
| `PricedList.PricedList.Cap` | core/tx_list.go:427-456 | returns exactly the live transactions below the threshold whose sender is not local; the heap loses those and as many stale entries as the counter goes down, and nothing else |
| `PricedList.PricedList.Underpriced` | core/tx_list.go:458-482 | despite stale and repeated entries, compares with the true minimum over the live transactions; never true for local senders or an empty pool; only stale entries leave the heap, and the counter goes down by their number |
| `PricedList.PricedList.Discard` | core/tx_list.go:484-509 | returns cheapest live transactions that are not local, at most the asked number, and all of them if it returns fewer; the heap loses those and as many stale entries as the counter goes down, and nothing else |
| `PoolState.OneAccount` | core/tx_pool.go:862-901 | an operation on one account keeps the invariant of all others |
| `PoolState.RemovesPending` | core/tx_pool.go:874-893 | removing a pending transaction cuts the list there, moves the pending nonce back and keeps contiguity and disjointness, whether what follows is requeued or not |
| `PoolState.RemovesQueued` | core/tx_pool.go:894-900 | removing a queued transaction keeps the invariant |
| `PoolState.ExhaustedCut` | core/tx_pool.go:887-890 | a pending nonce that goes back to a pending transaction never points at a queued one |
| `PoolState.ReplacesPending` | core/tx_pool.go:635-649 | a replacement keeps the nonces and the set of known transactions in step |
| `PoolState.EntersQueue` | core/tx_pool.go:674-698 | a transaction that is not pending enters the queue outside the pending range |
| `PoolState.QueueShrinks` | core/tx_pool.go:921-951 | dropping queued transactions keeps the invariant |
| `PoolState.Promotes` | core/tx_pool.go:712-748 | the transaction with the pending nonce extends the contiguous list |
| `PoolState.RunStarts` | core/tx_pool.go:937-941 | what is ready starts exactly at the pending nonce, and what stays queued lies beyond the new one |
| `PoolState.RunTaken` | core/tx_pool.go:937-941 | the run is all of the queue below the new pending nonce |
| `PoolState.HigherOverfull` | core/tx_pool.go:957-1027 | if the lists are too long at one level they are too long at every higher one |
| `PoolState.EqualisedFair` | core/tx_pool.go:957-1027 | no account is cut below its guaranteed slots, and no list ends up longer than one that was cut |
| `PoolState.DemotedNonces` | core/tx_pool.go:1073-1112 | under any state nonce, what a pending list keeps is contiguous from that nonce unless it lacks that nonce, which takes a nonce that has gone back; what is postponed stays apart from it |
| `PoolState.FilteredFine` | core/tx_pool.go:1076-1093 | the same together with ownership and the known transactions |
| `PoolState.RenumberedSound` | core/tx_pool.go:424-428 | pending nonces set behind the last pending transactions restore the invariant |
| `PoolState.AllPostponed` | core/tx_pool.go:1099-1107 | with a gap in front the whole list is postponed, and the empty list fits the new state |
| `PoolState.UnhooksQueued` | core/tx_pool.go:894-900 | a removal takes nothing but its own transaction off the queue if and only if its nonce is not queued or queued for this very transaction |
| `PoolState.UnhooksPending` | core/tx_pool.go:874-893 | a removal takes nothing but its own transaction off the two lists if and only if that one is pending, and something is left before it or nothing after it |
| `PoolState.BatchedMore` | core/tx_pool.go:806-829 | a batch accepts each transaction as if added alone after those before it |
| `PoolState.InsertedRoom` | core/tx_pool.go:617-672 | with room nothing leaves, and a checked transaction is taken in exactly if its nonce is free or it outbids what has it |
| `PoolState.Admitted` | core/tx_pool.go:617-672 | an admitted transaction: in a full pool cheapest ones leave first, and then the nonce decides |
| `PoolState.BatchingMore` | core/tx_pool.go:806-817 | a batch in any pool: each transaction is inserted on top of those before it |
| `PoolLists.RenewedStep` | core/tx_pool.go:915-955 | promoting the accounts one by one brings each up to date and leaves all others alone; an account that comes twice stays as it is |
| `PoolLists.CuttingClears` | core/tx_pool.go:1050-1058 | accounts that have been looked at keep all or nothing, the others everything |
| `PoolLists.CuttingShortens` | core/tx_pool.go:1059-1065 | the last one keeps its lowest nonces, and all others all or nothing |
| `PoolKnown.ForgetsExactly` | core/tx_pool.go:903-1068 | what is known afterwards is what was known less exactly what has left the lists |
| `PoolKnown.ForgetsAgain` | core/tx_pool.go:903-1068 | which composes over steps |
| `PoolKnown.QueueForgets` | core/tx_pool.go:920-951 | the part of a queue that is dropped is forgotten, and nothing else |
| `PoolKnown.CutForgets` | core/tx_pool.go:988-1000 | the last transaction of a pending list that is cut is forgotten, and nothing else |
| `PoolKnown.MoveForgets` | core/tx_pool.go:936-941 | what is promoted stays known |
| `PoolKnown.RemoveForgets` | core/tx_pool.go:1050-1065 | a queued transaction that is removed is forgotten, and nothing else |
| `PoolKnown.SpentGone` | core/tx_pool.go:1078-1093 | demotion drops exactly what is below the state nonce or over a limit |
| `PoolKnown.PassedNext` | core/tx_pool.go:1073-1113 | account by account |
| `PoolKnown.PassedDone` | core/tx_pool.go:1073-1113 | after all accounts the known transactions are exactly those from before that are not spent |
| `PoolReorg.ChangedOrdered` | core/tx_pool.go:414-417 | whatever is taken in and whatever leaves for it, the pending nonces stay consecutive from the old state nonce and no queued nonce is among them |
| `PoolReorg.BatchedChanges` | core/tx_pool.go:806-817 | a batch that fits is taken in without anything leaving |
| `PoolReorg.InsertedChanges` | core/tx_pool.go:806-817 | a batch in any pool is a sequence of transactions that are taken in and others that leave |
| `PoolReorg.LimitsKeep` | core/tx_pool.go:942-951 | what the limits take from the queue makes no difference |
| `PoolReorg.RunBridges` | core/tx_pool.go:936-941 | the run promoted from a nonce that went back starts there, has no gap, and stops at the old pending list at the latest |
| `PoolReorg.CutFront` | core/tx_pool.go:957-1027 | a cut to no more than the run leaves a contiguous list |
| `PoolReorg.CutRest` | core/tx_pool.go:957-1027 | any longer cut leaves all of the run and the first of the old pending transactions |
| `PoolReorg.GapInFront` | core/tx_pool.go:1099-1106 | a list that lacks the state nonce is put in order by postponing it |
| `PoolReorg.GapStranded` | core/tx_pool.go:1086-1093 | a gap goes if the first transaction behind it is over a limit |
| `PoolReorg.GapStays` | core/tx_pool.go:1099-1106 | otherwise a gap behind the state nonce stays: the test for a gap in front does not see it |
| `PoolReorg.TwoPartsRestored` | core/tx_pool.go:414-422 | for any promoted run and cut: after demotion the lists are in sequence again if and only if nothing is promoted, the run reaches the old list, nothing was pending, the cut leaves no more than the run, or the first old pending transaction is over a limit |
| `PoolReorg.ForwardLists` | core/tx_pool.go:414-422 | under a nonce that has not gone back the lists are in sequence again |
| `PoolReset.ChangedTracks` | core/tx_pool.go:887-890 | the pending nonce during reinjection: that of the new state as long as no pending transaction below it leaves, else the end of the pending list |
| `PoolReset.NextKept` | core/tx_pool.go:887-890 | it is that of the new state if and only if no pending nonce below it is gone |
| `PoolReset.NeatPromotes` | core/tx_pool.go:936-941 | an account in sequence is in order after promotion, with nothing executable queued |
| `PoolReset.GappyPromotes` | core/tx_pool.go:936-941 | the last promotion may promote into a gap, but does not close it |
| `PoolReset.GappyTrims` | core/tx_pool.go:957-1027 | with a gap, the last cut puts the account in order if and only if it takes some of what is in front of the gap |
| `PoolReset.BelowEnds` | core/tx_pool.go:424-431 | a pending nonce below the state nonce with nothing pending stays there, and nothing is promoted |
| `PoolReset.BackInOrder` | core/tx_pool.go:414-431 | the exact condition for a nonce that has gone back |
| `PoolReset.ForwardInOrder` | core/tx_pool.go:414-431 | the exact condition for a nonce that has not |
| `PoolReset.ResetInOrder` | core/tx_pool.go:401-431 | for every account of every sound pool, every new state, whatever is taken in, leaves and is cut: at the end of the reset the account is in order if and only if the condition holds |
| `PoolReset.InOrderIsFine` | core/tx_pool.go:186-216 | in order means the invariant of the pool for the account, apart from whose the transactions are |
| `PoolReset.ChangedSurvives` | core/tx_pool.go:414-417 | in every case: after reinjection listed transactions are known, own, and listed once, and pay the floor or have a local sender |
| `PoolReset.EndFewer` | core/tx_pool.go:414-431 | in every case: the lists at the end hold nothing that they did not hold after reinjection, and nothing twice |
| `PoolReset.EndListed` | core/tx_pool.go:414-431 | so they are still known and own |
| `PoolReset.ReorgGap` | core/tx_pool.go:1099-1106 | nonces 6 to 8 are pending in a sound pool, the nonce goes back to 3, and of 3, 4 and 5 given back the last two are underpriced: a gap stays to the end, unless a cut takes the list down to what was promoted or less |
| `PoolReset.ExampleSound` | core/tx_pool.go:186-216 | that pool keeps the invariant |
| `PoolReset.EarlyLoss` | core/tx_pool.go:887-890 | nonces 0 to 4 are pending, the chain comes to nonce 3, and nonce 1 is dropped to make room: in the end nothing is pending, the pending nonce is 1, and nonce 3 stays queued, unless the limits of the queue take it |
| `PoolReset.LossSound` | core/tx_pool.go:186-216 | that pool keeps the invariant |
| `TxPool.TxPool.constructor` | core/tx_pool.go:218-237 | an empty pool keeps the invariant |
| `TxPool.TxPool.EnqueueTx` | core/tx_pool.go:674-698 | inserts or replaces in the queue exactly under the bump rule, with the exact new set of known transactions and a covering price heap |
| `TxPool.TxPool.Postpone` | core/tx_pool.go:882-885 | what a pending list gave up is queued without loss |
| `TxPool.TxPool.RemoveTx` | core/tx_pool.go:860-901 | exact new lists and pending nonce in each case, including the list that becomes empty; exactly one transaction leaves `all` |
| `TxPool.UnhooksOther` | core/tx_pool.go:862-900 | from two pending transactions, raising the floor twice with an addition in between leads to a known transaction in no list: a removed one has taken it off the queue |
| `TxPool.TxPool.DropAll` | core/tx_pool.go:627-631 | transactions that the heap gave up leave one by one, with the exact new lists; the heap covers the pool again |
| `TxPool.TxPool.SetGasPrice` | core/tx_pool.go:463-474 | exactly the transactions below the floor whose sender is not local leave, with the exact new lists |
| `TxPool.TxPool.MakeRoom` | core/tx_pool.go:617-632 | a full pool accepts exactly what pays more than its cheapest transaction, or is local; only cheapest transactions that are not local leave, at least one if there is any, and no more than needed |
| `TxPool.TxPool.Replace` | core/tx_pool.go:635-658 | exactly under the bump rule one pending transaction is exchanged; the floor holds although the sender is not marked as local |
| `TxPool.TxPool.Place` | core/tx_pool.go:633-672 | succeeds exactly if the nonce is free or outbid, with the exact new lists; a local sender is marked only on the way into the queue |
| `TxPool.TxPool.Add` | core/tx_pool.go:554-672 | with or without room, accepts a transaction exactly if it is unknown, valid, admitted, and not outbid once the cheapest have left; then exactly its place in the pending list or the queue changes; the invariant holds on every path |
| `TxPool.TxPool.Insert` | core/tx_pool.go:617-672 | the same for a transaction that passed the checks |
| `TxPool.TxPool.PromoteTx` | core/tx_pool.go:712-748 | all branches: worse than the present one, replacing, or new |
| `TxPool.TxPool.PromoteRun` | core/tx_pool.go:936-941 | all of the queue below the new pending nonce has become pending, and that nonce is missing |
| `TxPool.TxPool.Forget` | core/tx_pool.go:921-926 | dropped transactions leave `all` and the heap keeps covering |
| `TxPool.TxPool.ForwardQueue` | core/tx_pool.go:920-926 | exactly the nonces below the state nonce go; and those are forgotten |
| `TxPool.TxPool.FilterQueue` | core/tx_pool.go:927-935 | exactly what the account cannot pay for or no block can hold goes; and that is forgotten |
| `TxPool.TxPool.ReadyQueue` | core/tx_pool.go:936-941 | exactly the longest run from the pending nonce moves from the queue to the pending list |
| `TxPool.TxPool.TakeRun` | core/tx_pool.go:937-937 | takes that run out of the queue and leaves the rest |
| `TxPool.TxPool.CapQueue` | core/tx_pool.go:942-951 | the lowest nonces stay, as many as allowed; and the others are forgotten |
| `TxPool.TxPool.PruneQueue` | core/tx_pool.go:920-935 | what is left is exactly what the chain has not passed and the account can pay for |
| `TxPool.TxPool.TrimQueue` | core/tx_pool.go:942-955 | a local account keeps its queue, others their lowest nonces; an empty list is deleted |
| `TxPool.TxPool.PromoteAccount` | core/tx_pool.go:915-955 | the exact new lists of the account: too old and unaffordable transactions are gone, the maximal run from the pending nonce is pending, and the rest stays queued within the limit |
| `TxPool.TxPool.CutOne` | core/tx_pool.go:987-1000 | exactly the last pending transaction of the account goes, and the list ends at the pending nonce again; and is forgotten |
| `TxPool.TxPool.Round` | core/tx_pool.go:986-1001 | after a round the offenders are equal again, one lower, and the count is exact |
| `TxPool.TxPool.LowerTo` | core/tx_pool.go:984-1002 | rounds go on exactly while the pool is too full and the offenders are above the threshold, and end |
| `TxPool.TxPool.Penalise` | core/tx_pool.go:974-1004 | the next longest list joins the offenders, which come down to its length unless the pool fits before |
| `TxPool.TxPool.ReduceAll` | core/tx_pool.go:1005-1025 | the second loop brings all offenders down together, not below the guaranteed slots |
| `TxPool.TxPool.Equalise` | core/tx_pool.go:957-1027 | terminates with every list that is not local cut to the highest common level that fits, or to the guaranteed slots; local lists are untouched; exactly what is cut is forgotten |
| `TxPool.Longest` | core/tx_pool.go:975-977 | the priority queue gives a longest list |
| `TxPool.CountAll` | core/tx_pool.go:958-961 | the total length of all lists |
| `TxPool.TxPool.ClearQueue` | core/tx_pool.go:1050-1058 | all queued transactions of one account go, and no other list changes; and are forgotten |
| `TxPool.TxPool.ShortenQueue` | core/tx_pool.go:1059-1065 | exactly the overflow goes, from the highest nonce down; and is forgotten |
| `TxPool.TxPool.LimitQueue` | core/tx_pool.go:1028-1067 | a queue within the limit is left alone; else exactly the limit is left, or only what local accounts have; local queues are untouched, others keep their lowest nonces, and all accounts but one keep all or nothing; exactly what leaves is forgotten |
| `TxPool.TxPool.PromoteExecutables` | core/tx_pool.go:903-1068 | the exact lists: each given account is brought up to date, the pending lists are equalised, and the queue is limited; the invariant holds, nothing executable is queued for the given accounts, and both limits hold but for guaranteed slots and local accounts; exactly what leaves the lists is forgotten |
| `TxPool.TxPool.PromoteAll` | core/tx_pool.go:915-955 | each given account is brought up to date, and no other changes |
| `TxPool.TxPool.DropOne` | core/tx_pool.go:1050-1065 | one account loses all it has queued, or its highest nonces down to the limit |
| `TxPool.TxPool.AddTx` | core/tx_pool.go:778-794 | inserts exactly as `Add`, and promotes the sender exactly if nothing was replaced; the exact lists in either case |
| `TxPool.TxPool.AddTxs` | core/tx_pool.go:806-829 | with or without room, inserts each transaction on top of those before it, and then promotes exactly the accounts that got something new; the exact lists; with room for all, accepts exactly what would be accepted one by one; exactly what promotion takes off the lists is forgotten |
| `TxPool.TxPool.AddLocked` | core/tx_pool.go:813-823 | one of the batch: accepted and put in its place exactly as by `Add` |
| `TxPool.TxPool.Evict` | core/tx_pool.go:255-271 | exactly the queues of inactive accounts that are not local go; exactly what was in them is forgotten |
| `TxPool.TxPool.FilterPending` | core/tx_pool.go:1078-1093 | what the pending list keeps and strands under the new state; exactly what is below the state nonce or over a limit is forgotten |
| `TxPool.TxPool.PostponeStranded` | core/tx_pool.go:1076-1093 | and that is queued, and apart from what is kept |
| `TxPool.TxPool.PostponeAll` | core/tx_pool.go:1099-1106 | with a gap in front everything kept is queued as well, without loss |
| `TxPool.TxPool.PostponeGapped` | core/tx_pool.go:1099-1107 | then nothing stays pending, all of it is queued, and that fits the new state |
| `TxPool.TxPool.DemoteAccount` | core/tx_pool.go:1075-1112 | the exact new lists of the account, which fit the new state, with or without a gap in front; an empty list is deleted; exactly what is below the state nonce or over a limit is forgotten |
| `TxPool.TxPool.DemoteUnexecutables` | core/tx_pool.go:1073-1113 | every account keeps exactly what it still can have pending and queues what is stranded; exactly what is below its state nonce or over a limit is forgotten |
| `TxPool.TxPool.Renumber` | core/tx_pool.go:424-428 | pending nonces are set behind the last pending transactions, and the invariant holds |
| `TxPool.TxPool.Advance` | core/tx_pool.go:401-428 | the same together with the new pending nonces: the invariant holds under the new state; the known transactions are exactly those from before that are not spent |
| `TxPool.TxPool.Reset` | core/tx_pool.go:401-432 | for any new state, also with nonces that go back: the exact lists after demotion, promotion and limits; exactly what is spent or leaves the lists is forgotten; the invariant holds under the new state, nothing executable is queued, and the limits hold |
| `TxPool.Do` | core/tx_pool.go:186-1113 | every operation does what it promises, with the exact lists and known transactions |
| `TxPool.Run` | core/tx_pool.go:186-1113 | every state of every run from an empty pool keeps the invariant, and the run is a trace of the steps that its operations promise |
| `ChainIndexer.EveryRun` | core/chain_indexer.go:112-414 | in every run, from whatever the database held, what the update loop has read hangs on the head it started from, and every recorded head is linked through a whole section to the one before, or was there at the start, came by a checkpoint, is about to be deleted, or was left behind between a store and a look by the two threads |
| `ChainIndexer.HeldStep` | core/chain_indexer.go:112-414 | every step keeps that account of every recorded head |
| `ChainIndexer.SecureClear` | core/chain_indexer.go:402-414 | a step of the clearing deletes a linked head, leaves it behind in the one way, or keeps it linked and within the count |
| `ChainIndexer.SecureSetting` | core/chain_indexer.go:402-414 | so does a step of a notification |
| `ChainIndexer.JobStep` | core/chain_indexer.go:274-367 | every step keeps what the update loop has read one run of headers |
| `ChainIndexer.StillThere` | core/chain_indexer.go:300-303 | a head found again shows that no reorganisation went below the section |
| `ChainIndexer.OneChain` | core/chain_indexer.go:334-367 | consecutive linked sections form one chain of headers |
| `ChainIndexer.RemainsAlong` | core/chain_indexer.go:402-414 | at every point of every run the count in the database is the last one written, the count in memory is the last one assigned unless a thread is setting it, and the heads that nobody attends to are those left behind |
| `ChainIndexer.RestCoherent` | core/chain_indexer.go:343-346 | for every interleaving: once clearing and notifications are done, the index is coherent if and only if the last count written is the last one assigned and no head is left behind |
| `ChainIndexer.NeatStep` | core/chain_indexer.go:402-414 | while only one thread at a time sets the number of sections, each step keeps it on its way to a coherent index |
| `ChainIndexer.CoherentRun` | core/chain_indexer.go:112-414 | in every run the index is coherent whenever nothing is under way, unless at some point a clearing and a notification were under way at once |
| `ChainIndexer.NoticeAlone` | core/chain_indexer.go:112-257 | the steps of a notification that is left alone amount to the whole operation |
| `ChainIndexer.WholeSections` | core/chain_indexer.go:244-256 | the known sections are exactly those known before or complete with enough confirmations |
| `ChainIndexer.RevertedBack` | core/chain_indexer.go:222-240 | a reorganisation reverts the known sections and the cascaded head exactly as stated for `NewHead` |
| `ChainIndexer.KnownAlong` | core/chain_indexer.go:217-318 | at every point of every run a known section is stored, or confirmed by a head that no later reorganisation undid, unless a failure is still to be noted |
| `ChainIndexer.TakenUp` | core/chain_indexer.go:276-293 | in every run a section that is taken up was confirmed by a head, and no reorganisation since has reached into it |
| `ChainIndexer.NoneTaken` | core/chain_indexer.go:314-317 | after a failure nothing is taken up before the next head, whatever checkpoints and reorganisations come |
| `ChainIndexer.ChainIndexer.constructor` | core/chain_indexer.go:93-110 | resumes with the count and the heads that the database holds |
| `ChainIndexer.ChainIndexer.SetValidSections` | core/chain_indexer.go:401-414 | left alone: the count is set in memory and in the database, and exactly the heads between the new and the old count go |
| `ChainIndexer.ChainIndexer.SetStep` | core/chain_indexer.go:402-414 | one load, store or deletion of it, with the decrement wrapping at zero |
| `ChainIndexer.ChainIndexer.AddKnownSectionHead` | core/chain_indexer.go:112-123 | below the stored count nothing changes; else the head is recorded and both counts are one above it |
| `ChainIndexer.ChainIndexer.NewHead` | core/chain_indexer.go:217-257 | the exact new state; after a reorganisation a section is known exactly if it was and ends at or below the new head, nothing is cascaded above the start of the section of that head, and a coherent index keeps exactly the heads below; else known sections are those known before or with enough confirmations |
| `ChainIndexer.ChainIndexer.Notice` | core/chain_indexer.go:112-257 | a notification that gets the lock starts exactly if its test finds something to set; known sections and cascaded head as for a whole notification |
| `ChainIndexer.ChainIndexer.NoticeStep` | core/chain_indexer.go:112-257 | one step of it |
| `ChainIndexer.ChainIndexer.BeginUpdate` | core/chain_indexer.go:274-293 | takes up the next section, with the recorded head before it, exactly if one more is known than stored |
| `ChainIndexer.ChainIndexer.ProcessOne` | core/chain_indexer.go:348-361 | reads one canonical header and goes on exactly if it has the right number and parent |
| `ChainIndexer.ChainIndexer.ResetFails` | core/chain_indexer.go:343-346 | a refused start begins the clearing |
| `ChainIndexer.ChainIndexer.ClearStep` | core/chain_indexer.go:402-414 | one step of the clearing |
| `ChainIndexer.ChainIndexer.ClearAlone` | core/chain_indexer.go:402-414 | an undisturbed clearing terminates with both counts zero and exactly the heads below the old count gone |
| `ChainIndexer.ChainIndexer.CommitFails` | core/chain_indexer.go:362-365 | a refused commit fails the section |
| `ChainIndexer.ChainIndexer.EndUpdate` | core/chain_indexer.go:298-318 | records the section exactly if it was read and the head before it is still the same, with the cascaded head at its end; else only the known sections go down to the stored ones |
| `ChainIndexer.ChainIndexer.UpdateAlone` | core/chain_indexer.go:274-318 | an undisturbed section is recorded if and only if its canonical headers follow each other from the recorded head |
| `ChainIndexer.ChainIndexer.ReadSection` | core/chain_indexer.go:348-361 | the reading loop succeeds if and only if they do |
| `ChainIndexer.ChainIndexer.ReorgInside` | core/chain_indexer.go:300-303 | a section that has been read is recorded in spite of a reorganisation if and only if that reaches back no further than into it |
| `ChainIndexer.ChainIndexer.Do` | core/chain_indexer.go:112-414 | every operation of the class is a step of the state machine |
| `ChainIndexer.Run` | core/chain_indexer.go:112-414 | every interleaving on the class is a run of the state machine, with the account of every head, the exact condition for coherence at rest, and coherence without overlap, and known sections only as confirmed or stored |
| `ChainIndexer.CheckpointAtEnd` | core/chain_indexer.go:343-346 | a checkpoint before the last assignment of a clearing stays in the database while memory forgets it |
| `ChainIndexer.CheckpointInLoop` | core/chain_indexer.go:402-414 | a checkpoint during the loop leaves its count in the database after its head is deleted |
| `ChainIndexer.ReorgInLoop` | core/chain_indexer.go:402-414 | so does a reorganisation during the loop that lowers the count to one |
| `ChainIndexer.ReorgStrands` | core/chain_indexer.go:402-414 | a reorganisation to the first section after a store of the clearing leaves a head although both counts are zero |
| `ChainIndexer.ClearStrands` | core/chain_indexer.go:402-414 | so does a clearing after a store of the reorganisation |
| `ChainIndexer.ClearedInside` | core/chain_indexer.go:217-235 | a whole clearing inside a reorganisation that has just made its test: the index ends coherent with a count of one, and the head of that section is gone |
| `Gas.IntrinsicGas` | core/state_transition.go:79-105 | the base cost plus 68 gas for every non-zero byte and 4 for every zero byte |
| `Gas.IntrinsicCounts` | core/state_transition.go:79-105 | 53000 for a contract creation after homestead and 21000 otherwise, plus 68 for every byte that is not zero and 4 for every other |
| `Gas.IntrinsicGrows` | core/state_transition.go:90-103 | every further byte adds its own cost |
| `Gas.GasPool.constructor` | core/state_processor.go:64-64 | a pool with the block limit |
| `Gas.GasPool.AddGas` | core/gaspool.go:26-31 | adds gas |
| `Gas.GasPool.SubGas` | core/gaspool.go:33-42 | takes gas exactly if there is enough, else changes nothing |
| `Gas.Charged` | core/state_transition.go:270-273 | all of the refund goes off if it is at most half of the gas, else half of the gas |
| `Gas.FeeIsProduct` | core/state_transition.go:174-174 | a fee is gas times price |
| `Gas.StateTransition.UseGas` | core/state_transition.go:159-166 | uses gas exactly if there is enough |
| `Gas.StateTransition.BuyGas` | core/state_transition.go:168-191 | succeeds exactly if the gas fits 64 bits, the balance covers it and the pool has it; an error changes nothing and names the first that fails |
| `Gas.StateTransition.PreCheck` | core/state_transition.go:193-207 | the same after the nonce check, with its two errors |
| `Gas.StateTransition.Enter` | core/state_transition.go:212-244 | exactly when a message is run, and the state in which it runs; else the error, and what has been paid already |
| `Gas.EnteredState` | core/state_transition.go:168-244 | the sender has paid its gas at its price and nobody else has; a call has raised its nonce by one, a creation has not |
| `Gas.StateTransition.RefundGas` | core/state_transition.go:263-280 | sender and pool get back exactly what the message is not charged for; the 64-bit sum does not overflow |
| `Gas.StateTransition.Settle` | core/state_transition.go:255-258 | what leaves the sender arrives at the coinbase |
| `Gas.StateTransition.TransitionDb` | core/state_transition.go:209-261 | applied exactly if it can be entered and pay its value; charged for the gas required less the refund, or less half if the refund is more; the coinbase gets the charge and the sender the rest at the price, on top of what the machine left, and nobody else anything; the supply is unchanged; a refused message names the first check that fails, and what it leaves behind is stated |
| `Gas.HasMoved` | core/state_transition.go:255-280 | settling in terms of balances and the refund rule |
| `Gas.SettledPays` | core/state_transition.go:258-280 | the balances after settling, also when the sender is the coinbase |
| `Gas.ApplyMessage` | core/state_transition.go:128-133 | for a message and a state: applied exactly if it can be, with the exact final state, the supply unchanged and the pool less the charge; a refused message costs nothing, or the prepayment if it was made |
| `Gas.ApplyTransaction` | core/state_processor.go:90-113 | one message on top of the earlier ones of its block: exact receipt, used gas and state with its refund counter cleared; used gas plus pool stays the block limit |
| `Gas.ExtendedAdds` | core/state_processor.go:90-113 | one more message of a block: it is applied exactly if it succeeds in the room left, its receipt follows the others, and it is settled by the refund rule |
| `Gas.Process` | core/state_processor.go:58-84 | the block is the replay of its messages, each on the state and in the room left by the earlier ones, and is rejected exactly if one of them is; used gas plus pool is the limit, receipts are cumulative, and the supply is unchanged |
| `Distributor.RequestDistributor.constructor` | lzrm/distributor.go:73-86 | an empty distributor |
| `Distributor.RequestDistributor.RegisterPeer` | lzrm/distributor.go:88-93 | one more peer |
| `Distributor.RequestDistributor.UnregisterPeer` | lzrm/distributor.go:95-100 | one peer less |
| `Distributor.RequestDistributor.Queue` | lzrm/distributor.go:229-260 | a new request gets the next number, one queued again keeps its own, and the queue stays in order |
| `Distributor.RequestDistributor.Position` | lzrm/distributor.go:242-251 | the place before the first later request |
| `Distributor.RequestDistributor.Cancel` | lzrm/distributor.go:262-276 | takes the request out exactly if it is queued |
| `Distributor.RequestDistributor.Remove` | lzrm/distributor.go:278-285 | takes one request out and keeps the order |
| `Distributor.RequestDistributor.AskPeers` | lzrm/distributor.go:193-213 | a peer is met exactly at the oldest request it can serve |
| `Distributor.RequestDistributor.NextRequest` | lzrm/distributor.go:176-227 | terminates; pairs a peer with its oldest servable request, with the least wait of all pairs; drops exactly the requests at the front that no registered peer can take |
| `Distributor.ChooseReady` | lzrm/distributor.go:222-225 | the weighted draw returns one of the pairs that can be sent at once |
| `Distributor.DroppedNext` | lzrm/distributor.go:214-218 | at the front nobody was met before, so a request is dropped only if no registered peer can serve it |

## Left out

- TxPool.TxPool.Reset: takes a new state without reinjection; what giving back transactions does is proved for each account over plain values by `PoolReset.ResetInOrder`, since the invariant of the class does not survive it in the cases stated there. `TxPool.TxPool.AddTxs` shows that a batch is such a sequence of changes (`PoolReorg.InsertedChanges`), but for a pool that keeps its invariant.
- TxPool.Run: heads that give transactions back are outside the run, for the same reason.
- PoolReset.ResetInOrder: one account; the others enter through what leaves for what is taken in, whether the account got something new, the sizes to which the equaliser cuts its list, and what the limits take from its queue, all of them arbitrary.
- HeaderChain.HeaderChain.constructor: starts with genesis only; resuming from a stored head is a start in any state of the invariant, as `HeaderChain.Run` allows.
- BlockChain.BlockChain.WriteBlockAndState: that a processed block cannot replay a transaction of its own chain follows from the nonce check of `Gas.StateTransition.PreCheck`, but this link between the two modules is not proved.
- ChainIndexer.Run: loads and stores of the unlocked count take effect in one order for both threads. Counts are natural numbers but for the decrement below zero, so a checkpoint for section 2^64 - 1 does not wrap.
- Hasher.Hasher.Sum: does not promise a reusable tree once a toggle counter may have wrapped.
- WeightedSelect.WeightedRandomSelect.SetWeight: weights are natural numbers; negative weights and 64-bit overflow of the sums are not modelled.
- Distributor.RequestDistributor.Queue: expects a request that is not queued already, as its callers ensure; the source would list it twice.
- Merkle hasher: the pool of trees and its blocking, the `hash` field, `ReadFrom` and drawing; nodes are values and slices are copied, so aliasing of the caller's buffer is not captured.
- Chains: databases are maps and caches are transparent; `SetHead`, fast sync, receipt import, what a rollback does to the heads of blocks, the future-block queue and event posting are outside the runs. The number index above a lower new block head is not cleared by the source and nothing is claimed about it.
- Transaction pool: lists are kept by their contents, and an operation on a list runs that list's method on a list object with these contents. Journal, timers, event posting, statistics and the order of accounts by heartbeat are left open or out. Size, value sign, signature and intrinsic gas of a new transaction are one input of validation. A hash determines its transaction, so `all` is a set. Transactions that `removeTx` strands when a pending list becomes empty stay in `all`, so only "every listed transaction is in `all`" is claimed. The priority queue pops a longest list; its float32 priorities are exact below 2^24.
- Price heap: that the counter is the number of stale entries is not claimed, since demoted transactions are pushed again.
- Go's container/heap and sort are modelled by their documented algorithms; they are not part of the repository.
- Event feed: the value and its type check, and locking by channels; a send is one step at a time.
- Weighted selection: the distribution of the draws; the intervals give each item as many draws as its weight.
- Distributor: the sending loop, sleeping and the channels; callbacks answer alike during one call, and a remaining buffer value is a natural number.
- Chain indexer: child indexers, the backend's work, throttling and logging.
- Gas: the virtual machine itself, logs, receipts' roots, block rewards and the DAO state change; message recipient and value are part of the machine's step.
- RLP, JSON, networking, RPC, accounts, mobile bindings, `light/`, `lzrm/serverpool.go`, `lzrm/retrieve.go` and `lzrm/fetcher.go`.
