# A verified model of the TezEdge node's chain storage and scheduling

TezEdge is a Tezos node. This project models the parts of it in which state, order and arithmetic
are hard to get right, and proves what the node relies on:

- **The chain index.** Every applied block stores its ancestors at the distances 1, 2, 4, ... 2048
  (`PredecessorIndex`). A lookup at any distance hops through these slots (`BlockMetaStorage`).
  `NodeRuns` proves that in every run of the node without stops the lookup is the one-step walk it
  replaced, and `StoppedRuns` gives the exact condition for runs that are stopped between writes.
- **Block metadata.** Records are kept in a RocksDB column whose merge operator edits encoded bytes
  (`MetaCodec`). It refines a merge of records (`MetaMerge`). Headers arrive in any order, with
  repeats and placeholders (`HeaderArrival`).
- **Storing an applied block.** A commit log with indexes (`BlockStorage`) and a fixed order of
  writes with the applied flag last (`ApplyStore`), which may fail or stop between any two writes.
- **Applying batches.** The worker's loop over a batch with its one-entry cache and its reports
  (`BatchWorker`), the actor, ticket semaphore and channel that feed it (`Scheduler`), and what the
  one sees of the other (`WorkerSignals`).
- **Operations metadata.** Which validation passes of a block have arrived, under concurrent
  read-modify-write calls (`OperationsMeta`).
- **Generators and small state machines.** Block-locator steps (`SeededStep`), proof-of-work search
  and targets (`ProofOfWork`), admission of incoming peers (`PeerAdmission`), log rotation
  (`LogRotation`).

`Numbers` holds powers, bits and byte-order helpers, `Blocks` hashes, headers and the chain they
form. `dafny verify dfyconfig.toml` checks everything.

## How the source is read

- RocksDB is a map with get, put and merge. The writes of a block's result may fail or stop at any
  stage: nothing, JSON data, additional data, each slot, flag. Storing the JSON data is three writes
  in the source, to the log, the index by hash and the index by level. A stop after the first looks
  to readers by hash like none, after the second like all (`BlockStorage.BlockStorage.PutBlockJsonData`);
  the readers by level are not part of the runs.
- `usize` has 8 bytes and numbers are stored big-endian (`storage/src/persistent/codec.rs:195-201`).
- A chain is *consistent* when genesis is its own predecessor at level 0 and every other block is one
  level above its predecessor (`Blocks.Chain.Consistent`). Header levels are not checked by the storage
  code itself.
- Debug assertions are off and `i32` arithmetic wraps, as in a release build.
- Preconditions stand for panics of the source: a negative distance, a pass number out of range, a
  level of `i32::MIN`, a stored value shorter than its own header.
- SHA-256 and BLAKE2b are function parameters of fixed output length. The random start of the nonce
  search, the protocol's answers and the share of a log buffer that reaches the file early are
  parameters too.
- One worker applies blocks. Header arrivals interleave freely with it: `NodeRuns.Step` lets any
  headers arrive between the worker's read of a block's record and its write-back, and
  `NodeRuns.ArrivalsCommute` shows that their exact place among the other writes does not matter.

## Where the code does not do what one would expect

Each of these has a lemma that shows it and an if-and-only-if that says when.

- The merge of block metadata is not associative (`MetaMerge.MergeNotAssociative`,
  `MetaMerge.MergeAssociativeIff`). Grouping is irrelevant for writers that only extend successor
  lists (`MetaMerge.GroupingIrrelevant`).
- The worker writes back the record it read before the protocol call. Children that arrived meanwhile
  vanish from the successor list (`HeaderArrival.StaleMarkAppliedIff`). Everything else survives.
- A stop between the additional data and the last due slot lets blocks be applied over a block with
  missing slots. Such a stop is harmless if and only if it comes before the additional data, or the
  block had additional data before, or its due slots are all written (`StoppedRuns.StopHarmlessIff`).
  All lookups are right in every state of a run if and only if all its stops are harmless
  (`StoppedRuns.RightThroughoutIff`). With slot k missing, blocks applied nearer than 2^k above look
  up everything correctly, and the one at 2^k is the first to be misled (`StoppedRuns.FirstMisledIff`):
  the child when no slot was written, the grandchild when one was (`StoppedRuns.GrandchildMisled`).
  Wherever the chain has a block at that distance, a run from committed genesis shows it
  (`StoppedRuns.HarmfulStopMisleads`).
- Overlapping `put_operations` calls can leave a record with all passes that is never marked complete
  (`OperationsMeta.OverlappingPutsMissCompletion`, `OperationsMeta.RecordAfterAnyInterleaving`).
- With one ticket a failed batch strands the queue, because its signal precedes the release
  (`Scheduler.OneTicketStrands`, `Scheduler.NeverStrandsIffTwoTickets`). The source uses two.
- The locator step overflows at call 310 (`SeededStep.DoublingIff`).
- The high threshold for peers bounds the incoming connections only up to 3
  (`PeerAdmission.ThresholdKeptIff`).
- A fraction of a proof-of-work target that is too small to lower 54 in floating point gives the
  mantissa 2^54, one more than no fraction: 24.000000000000004 is an easier target than 24
  (`ProofOfWork.FractionBetween`, `ProofOfWork.HigherIsSmallerIff`).

Two answers differ from what the text around them says. `ApplyBlockBatchDone` is also sent for a batch
that failed after its first block, although the comment beside it speaks of success only
(`BatchWorker.BatchReport`). `OperationsMetaStorage::put_block_header` answers for a fresh record even
when a fuller one is stored (`OperationsMeta.OperationsMetaStorage.PutBlockHeader`).

## Model

| member | source | states |
|---|---|---|
| NodeRuns.LookupIsNaiveWalk | storage/src/block_meta_storage.rs:236-277 | after every run, stops and concurrent headers included, in which blocks are applied on applied parents: a lookup from any applied block at any distance returns what the one-step walk returns, and nothing exactly when the distance passes genesis |
| NodeRuns.LookupIsNaiveWalkWithoutStops | storage/benches/predecessor_benchmarks.rs:16-63 | the same for every run without stops, with no condition on the blocks: the worker's own check is enough |
| NodeRuns.LookupNeverWrong | storage/src/block_meta_storage.rs:236-277 | after any run whatever, a lookup that returns a block returns the right one |
| NodeRuns.SlotTableExact | storage/src/predecessor_storage.rs:47-82 | after every such run slot i of an applied block at depth d exists if and only if i < 12 and 2^i <= d, and holds the ancestor at distance 2^i |
| NodeRuns.SlotsNeverChange | storage/src/predecessor_storage.rs:53-81 | a written slot keeps its content through every later run, stops included |
| StoppedRuns.RightThroughoutIff | storage/src/lib.rs:246-299 | for every run, with stops, failures and headers at any time: every lookup from every block with additional data, applied blocks included, is the one-step walk in every state of the run if and only if every stop in it is harmless, which is read off the stage, the block's level and whether it had additional data |
| StoppedRuns.StopHarmlessIff | storage/src/lib.rs:284-295 | from a state with right lookups, one stop leaves them right if and only if it came before the additional data, or the block had additional data before, or no due slot is missing |
| StoppedRuns.RightIffCovered | storage/src/block_meta_storage.rs:236-277 | all lookups are right if and only if every block with additional data has every due slot |
| StoppedRuns.FirstMisledIff | storage/src/predecessor_storage.rs:62-77 | a block stopped with slot k missing and the blocks above it applied: a block up to distance 2^k above looks up everything correctly if and only if it is nearer than 2^k; at 2^k the ancestor at distance 2^(k+1) is missed |
| StoppedRuns.HarmfulStopMisleads | storage/src/lib.rs:284-295 | for every block, every due slot k and every block 2^k above, a run from committed genesis whose only stop is that one ends with the upper block applied and misled |
| StoppedRuns.GrandchildMisled | storage/src/predecessor_storage.rs:62-77 | in particular a block stopped after one slot misleads its grandchild at distance 4 |
| StoppedRuns.ChildMisledIff | storage/src/lib.rs:284-295 | of the first child alone: its lookups are right if and only if at least one slot of its parent was written, whatever else was stopped |
| StoppedRuns.RunKeepsGrounded | storage/src/predecessor_storage.rs:53-81 | in every run only blocks with additional data have slots, and every slot was built from slots that are still there |
| BlockMetaStorage.MissingSlotMisleads | storage/src/block_meta_storage.rs:248-276 | a missing due slot k of a block makes the lookup at distance 2^(k+1) from the block 2^k above find nothing, although the ancestor exists |
| BlockMetaStorage.FindNear | storage/src/block_meta_storage.rs:248-276 | from complete blocks nearer than 2^k above a block with only its slots below k, every lookup is right |
| NodeRuns.NoStopsOnAppliedParent | shell/src/chain_feeder.rs:1002-1036 | without stops, blocks with additional data are exactly the applied ones, so every block is applied on an applied parent |
| NodeRuns.EveryRunIsSafe | shell/src/chain_feeder.rs:843-930 | in every state of every run: additional data is closed under predecessor down to genesis, applied blocks have JSON data, additional data and exactly the slots of their full store, the protocol is never asked for a block marked applied, every request holds the block's own header and record and its parent's header and stored data, the cache never changes a request, the head manager is told of each block at most once |
| NodeRuns.RunKeepsInv | shell/src/chain_feeder.rs:671-750 | the node invariant survives every run of header arrivals, batches, failures, stops and arrivals during an apply |
| NodeRuns.StepKeepsInv | shell/src/chain_feeder.rs:671-750 | every single step keeps it, for the headers received so far |
| NodeRuns.FlagComesLast | storage/src/lib.rs:259-295 | a block becomes applied only by its own full store: with the flag come the answer's JSON data, additional data that hold the answer's values field by field, and the complete run of the slot loop |
| NodeRuns.SlotsFromFlagging | storage/src/lib.rs:289-295 | over whole runs: a block that became applied was flagged by one step, its full store, and ends with exactly the slots the slot loop gave it there |
| NodeRuns.AppliedSlotsFinal | shell/src/chain_feeder.rs:873-877 | once a block is applied no step adds, removes or changes one of its slots or its flag |
| NodeRuns.CutKeepsInv | storage/src/lib.rs:259-290 | a stop before the flag, at any stage, keeps the invariant and changes no record |
| NodeRuns.StoreKeepsInv | storage/src/lib.rs:246-299 | the full store adds exactly its block to the applied ones and keeps the invariant, also when the written record is out of date |
| NodeRuns.ArrivalsCommute | storage/src/lib.rs:259-290 | a header arriving between any two writes before the flag gives the same store as one arriving before them |
| NodeRuns.ReceiveAllKeepsInv | storage/src/block_meta_storage.rs:79-175 | headers arriving in any number and order keep the invariant and touch no applied flag |
| NodeRuns.SerialRunKeepsRecords | storage/src/block_meta_storage.rs:79-175 | when no header arrives during an apply, the records after any run, successor lists included, are exactly those of the headers received |
| NodeRuns.CacheChangesNothing | shell/src/chain_feeder.rs:1002-1036 | with a coherent cache, request and outcome for every block are those obtained from the database alone |
| NodeRuns.AskedIsReady | shell/src/chain_feeder.rs:933-1000 | when the protocol is asked, the block is not applied and the request holds its own header and record, the header of its parent, and the additional data stored for its parent |
| NodeRuns.PrepareExact | shell/src/chain_feeder.rs:933-1000 | in every state of a run a request is ready, and right, if and only if the header arrived and the parent has additional data; otherwise it is a missing key |
| NodeRuns.DataFromLastStore | storage/src/lib.rs:252-285 | after every run the JSON data and the additional data of a block are those of the last answer stored for it, field by field, and unchanged when there was none |
| NodeRuns.RequestCarriesAnswer | shell/src/chain_feeder.rs:972-996 | after any run from committed genesis a request carries what the protocol last answered for the parent, or the genesis data |
| NodeRuns.RecordsNameChain | storage/src/block_meta_storage.rs:79-175 | every record, placeholders included, names the node's own chain after every run |
| NodeRuns.FreshInv | storage/src/lib.rs:304-353 | the node with committed genesis satisfies the invariant |
| BlockMetaStorage.FindExact | storage/src/block_meta_storage.rs:248-276 | over complete slots the greedy descent is the ancestor function, for all distances |
| BlockMetaStorage.FindSound | storage/src/block_meta_storage.rs:248-276 | over slots that are merely not wrong, whatever it returns is the ancestor |
| BlockMetaStorage.BlockMetaStorage.FindBlockAtDistance | storage/src/block_meta_storage.rs:236-277 | the loop computes the greedy descent, and a successful lookup reads exactly distance/2048 plus the one bits of distance mod 2048 slots |
| BlockMetaStorage.ReadsAfterHop | storage/src/block_meta_storage.rs:256-272 | each hop lowers the number of reads still needed by exactly one |
| BlockMetaStorage.NextHop | storage/src/block_meta_storage.rs:257-262 | the exponent is the largest stored one that fits, and the rest is what remains |
| BlockMetaStorage.ClosestPowerTwoAndRest | storage/src/block_meta_storage.rs:327-344 | for every i32: an error if and only if negative; else 2^p + rest is the distance with rest < 2^p, without overflow |
| BlockMetaStorage.FindBlockAtDistanceOld | storage/benches/predecessor_benchmarks.rs:16-63 | the loop it replaced is the one-predecessor-at-a-time walk |
| BlockMetaStorage.BlockMetaStorage.PutBlockHeader | storage/src/block_meta_storage.rs:79-175 | creates or completes the block's own record, adds it to its predecessor's record or a placeholder, and returns the record |
| BlockMetaStorage.BlockMetaStorage.StorePredecessors | storage/src/block_meta_storage.rs:177-188 | the same with twelve slots |
| PredecessorIndex.PredecessorStorage.StorePredecessors | storage/src/predecessor_storage.rs:47-82 | on a database that fails after any number of writes: the final slot table, the error, and the table after each write, one slot per write in order |
| PredecessorIndex.StoreCompleteIff | storage/src/predecessor_storage.rs:63-77 | the block gets all its slots if and only if every ancestor at distance 2^i has its own slot i |
| PredecessorIndex.CutCoversIff | storage/src/predecessor_storage.rs:53-81 | on top of complete ancestors, a block cut after k writes is complete if and only if it was before, or k is 12, or 2^k passes its depth |
| PredecessorIndex.CutSlotsPresent | storage/src/predecessor_storage.rs:53-81 | after k writes exactly the due slots below k are there |
| PredecessorIndex.StoreSupported | storage/src/predecessor_storage.rs:62-77 | cut or not, every slot is built from slots that are there |
| PredecessorIndex.NearComplete | storage/src/predecessor_storage.rs:62-77 | a block stored nearer than 2^k above one with k slots still gets all its slots |
| PredecessorIndex.StoreExtendsCover | storage/src/predecessor_storage.rs:53-81 | on top of a block with complete ancestors the new block is complete too, and all others stay so |
| PredecessorIndex.StoreSound | storage/src/predecessor_storage.rs:53-81 | cut after any number of writes, no slot is wrong |
| PredecessorIndex.StoreTouchesOnly | storage/src/predecessor_storage.rs:53-81 | slots of other blocks never change and no slot is removed |
| PredecessorIndex.CoveredSlotsExact | storage/src/predecessor_storage.rs:53-81 | presence and content of every slot of a complete chain, both directions |
| PredecessorIndex.FillPresence | storage/src/predecessor_storage.rs:65-77 | slot j is present after the loop if and only if it was before or every slot it is built from is there |
| HeaderArrival.ArrivalOrderIrrelevant | storage/src/block_meta_storage.rs:79-175 | from any correct records, two arrival sequences with the same headers, in any order and with repeats, leave the same records, flags and chain ids included, up to the order of successors |
| HeaderArrival.ArrivalRecords | storage/src/block_meta_storage.rs:79-175 | after any sequence each received block has its predecessor and level, each parent lists exactly its received children once, placeholders included, and nothing else is recorded |
| HeaderArrival.SuccessorsInArrivalOrder | storage/src/block_meta_storage.rs:128-172 | from any column the successors of every block are those it had followed by its new children in order of first arrival |
| HeaderArrival.HeaderKeepsRecorded | storage/src/block_meta_storage.rs:79-175 | one header, new or repeated, whatever records exist, keeps that, and changes no applied flag |
| HeaderArrival.RecordedIsDetermined | storage/src/block_meta_storage.rs:79-175 | columns that record the same headers are the same up to successor order if and only if their flags and chain ids agree |
| HeaderArrival.StaleMarkAppliedIff | storage/src/lib.rs:294-295 | writing back a record read before some headers arrived keeps the successors if and only if none of those headers was a new child |
| HeaderArrival.MarkAppliedKeepsRecorded | storage/src/lib.rs:294-295 | written back at once it only sets the flag |
| HeaderArrival.HeaderKeepsLinks | storage/src/block_meta_storage.rs:79-175 | levels, predecessors and the set of records stay right even after successors were lost |
| HeaderArrival.WriteBackKeepsLinks | storage/src/lib.rs:294-295 | writing back any earlier copy keeps them right |
| MetaMerge.GroupingIrrelevant | storage/src/block_meta_storage.rs:567-622 | however writes that only extend the successor list are grouped, the result is that of merging them in order |
| MetaMerge.MergeAssociativeIff | storage/src/block_meta_storage.rs:567-622 | two groupings of three records agree if and only if not (outer lists of equal length and different content around one of another length) |
| MetaMerge.EvaluateSummarises | storage/src/block_meta_storage.rs:567-622 | the result is applied if any operand is, has the first predecessor set, the newest successors and the first level and chain |
| MetaMerge.FactsAreForever | storage/src/block_meta_storage.rs:201-203 | under any sequence of writes from any stale copies, applied stays applied and a set predecessor, the level and the chain keep their values |
| MetaMerge.FactsComeFromWrites | storage/src/block_meta_storage.rs:201-203 | a flag or predecessor that appears was written for that block |
| MetaCodec.RoundTrip | storage/src/block_meta_storage.rs:458-547 | every record is decoded from its encoding unchanged, and encodings are well formed |
| MetaCodec.EncodeMeta | storage/src/block_meta_storage.rs:505-547 | the byte vector built field by field is the fixed layout |
| MetaCodec.EncodedLayout | storage/src/block_meta_storage.rs:454-547 | every field of an encoding at its place, in plain numbers: the three flag bits, predecessor, signed big-endian level, chain id, successor count and successors |
| MetaCodec.DecodeMeta | storage/src/block_meta_storage.rs:458-503 | reads the layout back; fails if and only if the value is shorter than the fixed part |
| MetaCodec.StepRefinesMerge | storage/src/block_meta_storage.rs:578-615 | one in-place edit is one merge of the decoded records, and the length keeps matching the successor count |
| MetaCodec.MergeFromRefinesMergeAll | storage/src/block_meta_storage.rs:578-622 | the same for any number of operands |
| MetaCodec.MergeBytesRefinesMergeAll | storage/src/block_meta_storage.rs:567-622 | a stored value counts like a first operand |
| MetaCodec.ByteGroupingIrrelevant | storage/src/block_meta_storage.rs:567-622 | partial merges of encoded writes in any grouping decode to the records merged in order |
| MetaCodec.MergeMetaValue | storage/src/block_meta_storage.rs:567-622 | the operator with its error cases: too short a stored value or a later operand gives nothing |
| MetaCodec.MergeFailsIff | storage/src/block_meta_storage.rs:567-622 | the merge gives nothing if and only if there is no value, the stored one is too short, or an operand merged into another value is |
| MetaCodec.MergeOperand | storage/src/block_meta_storage.rs:587-610 | the loop body edits mask, predecessor and successor tail as specified |
| BlockStorage.BlockStorage.PutBlockHeader | storage/src/block_storage.rs:122-147 | a header is stored the first time only, under its hash and level |
| BlockStorage.BlockStorage.PutBlockJsonData | storage/src/block_storage.rs:149-173 | replaces the JSON data of a known block and of its level, keeps every header; what readers by hash see after each of its three writes; an unknown block is an error that no reader notices |
| BlockStorage.BlockStorage.AssignToContext | storage/src/block_storage.rs:175-184 | files a known block under the context and changes nothing else |
| BlockStorage.BlockStorage.Get | storage/src/block_storage.rs:247-252 | through index and log to the stored header, or nothing |
| BlockStorage.BlockStorage.GetWithJsonData | storage/src/block_storage.rs:263-277 | header and newest JSON data, only when both are there |
| BlockStorage.BlockStorage.GetByContextHash | storage/src/block_storage.rs:363-371 | the header assigned to the context, or nothing |
| BlockStorage.BlockStorage.GetBlockHeaderByLocation | storage/src/block_storage.rs:187-199 | following an index never meets the wrong kind of column |
| BlockStorage.AppendKeeps | storage/src/block_storage.rs:122-147 | appending to the log changes the meaning of no location |
| ApplyStore.StoreAppliedBlockResult | storage/src/lib.rs:246-299 | on a database that fails at any stage or not at all: the answer, the final store, and the store after every single write in order; returned and stored additional data hold the protocol's values field by field, with the operations' metadata hash only when there are operations, and the stored JSON data are the answer's; a missing header is an error that leaves the store unchanged |
| BatchWorker.BatchReport | shell/src/chain_feeder.rs:752-828 | how often every report occurs, for every batch: one ApplyBlockDone, one release, the callback exactly once with success if and only if nothing failed and the last block is new, the failed block is the first unhandled one, the last handled one is named unless the worker leaves |
| WorkerSignals.SignalOrder | shell/src/chain_feeder.rs:782-820 | of every batch the scheduler sees exactly one signal and one release, the signal first after a failure and last otherwise |
| WorkerSignals.BatchIsWorkerSteps | shell/src/chain_feeder.rs:782-820 | the events of a batch are, in order and effect, the two steps Fail and DropAfterFail, or Finish and SignalDone, of the scheduler's step system |
| BatchWorker.HandledPrefixApplied | shell/src/chain_feeder.rs:671-750 | every handled block is applied afterwards, and it was newly applied if and only if it was neither applied before nor earlier in the batch |
| BatchWorker.ToldOfNewBlocks | shell/src/chain_feeder.rs:736-737 | the head manager hears exactly of the handled blocks that were not applied before, once each |
| BatchWorker.NewsFollowsCall | shell/src/chain_feeder.rs:681-750 | as long as nothing fails the protocol is called for exactly the blocks the head manager hears of, each call followed by the news |
| BatchWorker.FirstFailure | shell/src/chain_feeder.rs:671-799 | a failing batch handles a prefix of its blocks as if they were the batch, and does to the next one what it would do alone |
| BatchWorker.WhyItFailed | shell/src/chain_feeder.rs:843-930 | the error names its cause: what was missing, or a rejection, a missing context or a failing write after the protocol was asked, and only a failing write has changed the store |
| BatchWorker.LeavesIff | shell/src/chain_feeder.rs:786-799 | the worker leaves if and only if the first unhandled block was put to the protocol and rejected with a restart |
| BatchWorker.BlocksComeFirst | shell/src/chain_feeder.rs:752-828 | a batch reports after its blocks, and tells the head manager nothing on the way |
| BatchWorker.BatchIsRun | shell/src/chain_feeder.rs:662-799 | applying a batch is a stretch of a node run, with the same store and the same messages to the head manager |
| BatchWorker.ApplyBatch | shell/src/chain_feeder.rs:662-828 | store, reports and whether the worker leaves, for every batch, every protocol behaviour and every failing write |
| BatchWorker.ApplyBlocks | shell/src/chain_feeder.rs:671-799 | the loop handles blocks in order up to the first failure, with the cache renewed or dropped after each |
| BatchWorker.ApplyNext | shell/src/chain_feeder.rs:681-750 | one round: prepare, apply, tell the head manager, renew the cache |
| BatchWorker.ApplyBlock | shell/src/chain_feeder.rs:843-930 | an applied block is left alone; otherwise the protocol is asked and the result stored, or its failure or that of the database returned with what was written |
| BatchWorker.PrepareApplyRequest | shell/src/chain_feeder.rs:933-1000 | the errors of a missing header, record or predecessor, in that order, else the request of `Prepare`, whose content `NodeRuns.AskedIsReady` and `NodeRuns.PrepareExact` state |
| BatchWorker.ResolveData | shell/src/chain_feeder.rs:1002-1036 | the cached pair if it is the block asked for, else header and additional data from storage |
| BatchWorker.ReportFailure | shell/src/chain_feeder.rs:755-785 | callback, bootstrapper and scheduler are told, in that order |
| BatchWorker.Close | shell/src/chain_feeder.rs:801-828 | release, callback, scheduler, bootstrapper, in that order |
| BatchWorker.RunBlocks | shell/src/chain_feeder.rs:671-799 | handled blocks are a prefix, and the whole batch if and only if nothing failed |
| Scheduler.EveryRunKeeps | shell/src/chain_feeder.rs:222-269 | with at least two tickets, in every state of every interleaving: tickets are conserved, batches reach the worker in scheduling order with none lost or twice, and a waiting queue always has something that will wake the actor |
| Scheduler.FeederKeeps | shell/src/chain_feeder.rs:57 | so it is for the two tickets the source uses |
| Scheduler.EveryRunOrders | shell/src/chain_feeder.rs:215-269 | in every state of every run: what the worker received and what is in the channel is what was sent, in order; what was sent without a ticket is exactly what was injected; what was sent with one and what still waits is exactly what was scheduled |
| Scheduler.AtRestAllReceived | shell/src/chain_feeder.rs:222-269 | when nothing more can happen every injected and every scheduled batch was received exactly once, in order |
| Scheduler.NeverStrandsIffTwoTickets | shell/src/chain_feeder.rs:57 | work is never stranded if and only if there are at least two tickets |
| Scheduler.OneTicketStrands | shell/src/chain_feeder.rs:783-804 | the run in which one ticket strands a batch |
| Scheduler.AllWorkGetsDone | shell/src/chain_feeder.rs:249-269 | once arrivals stop, every interleaving ends within a bound computed from the state, and then everything scheduled was handed over in order |
| Scheduler.AtRestAllDone | shell/src/chain_feeder.rs:249-269 | when nothing more can happen the queue is empty, all batches were handed over and every ticket is back |
| Scheduler.WorkShrinks | shell/src/chain_feeder.rs:249-269 | every step but an arrival leaves less work |
| Scheduler.StepKeepsInv | shell/src/chain_feeder.rs:222-269 | each step of actor or worker keeps tickets, order and the promise of a wake-up |
| Scheduler.DrainHandsOut | shell/src/chain_feeder.rs:249-269 | the loop hands out as many batches as there are tickets, in order, and keeps the rest |
| Scheduler.ChainFeeder.ProcessBatchQueue | shell/src/chain_feeder.rs:249-269 | the loop over the semaphore and the queue moves as many batches as there are tickets from the front of the queue to the end of the channel, each with a ticket |
| Scheduler.ChainFeeder.ReceiveSchedule | shell/src/chain_feeder.rs:362-372 | the batch joins the end of the queue, then that hand-out |
| Scheduler.ChainFeeder.ReceiveDone | shell/src/chain_feeder.rs:374-384 | that hand-out after a batch is done |
| Scheduler.ChainFeeder.ReceiveApplyBlock | shell/src/chain_feeder.rs:350-360 | the batch joins the end of the channel without a ticket, and nothing else changes |
| OperationsMeta.RecordAfterAnyInterleaving | storage/src/operations_meta_storage.rs:43-81 | under any interleaving of overlapping calls the record shows exactly the passes whose puts ended, complete implies every pass present, and it is complete if and only if there are no passes or some put began when all others were stored |
| OperationsMeta.OverlappingPutsMissCompletion | storage/src/operations_meta_storage.rs:59-81 | a run that ends with every pass present and not complete |
| OperationsMeta.SerialPutsExact | storage/src/operations_meta_storage.rs:43-81 | for calls that do not overlap, complete if and only if every pass was put since the header; a complete record reports nothing missing, any other exactly the complement |
| OperationsMeta.RunKeepsInv | storage/src/operations_meta_storage.rs:43-81 | the invariant behind this survives every run |
| OperationsMeta.MergeCommutes | storage/src/operations_meta_storage.rs:134-172 | the merge is commutative on records of one shape |
| OperationsMeta.MergeAssociates | storage/src/operations_meta_storage.rs:134-172 | and associative, so RocksDB may regroup |
| OperationsMeta.MergeIdempotent | storage/src/operations_meta_storage.rs:134-172 | and idempotent, so repeated writes do no harm |
| OperationsMeta.MergedRefinesMerge | storage/src/operations_meta_storage.rs:158-166 | or-ing the bytes of two encoded records encodes their merge |
| OperationsMeta.MergedAllRefinesMerge | storage/src/operations_meta_storage.rs:134-172 | the same for any number of operands |
| OperationsMeta.MergeMetaValue | storage/src/operations_meta_storage.rs:134-172 | nothing if and only if there is no value or one does not fit the first; else every flag byte or-ed over all values and the others kept |
| OperationsMeta.MergeOperand | storage/src/operations_meta_storage.rs:157-166 | the loop over one operand |
| OperationsMeta.RoundTrip | storage/src/operations_meta_storage.rs:223-271 | encoding fails if and only if the flags do not match the pass count; otherwise decoding gives the record back, and the last byte is the completeness flag |
| OperationsMeta.Layout | storage/src/operations_meta_storage.rs:223-271 | a value is readable if and only if its length is its first byte plus 2; the bytes after the first are the flags in order, and the last one tells completeness |
| OperationsMeta.OperationsMetaStorage.PutBlockHeader | storage/src/operations_meta_storage.rs:43-50 | merges a fresh record and answers for the fresh record: complete with nothing missing if there are no passes, else all of them |
| OperationsMeta.OperationsMetaStorage.PutOperations | storage/src/operations_meta_storage.rs:59-81 | adds the pass, recomputes completeness, reports what is missing; an unknown block is an error |
| OperationsMeta.MissingIsComplement | storage/src/operations_meta_storage.rs:204-217 | the reported passes are exactly those not present |
| SeededStep.StateAfter | crypto/src/seeded_step.rs:50-88 | for every seed and any number n of calls: the step length, through doubling and overflow, and the counter 9 - n mod 10 |
| SeededStep.DoublingIff | crypto/src/seeded_step.rs:73-82 | the step is 2^(n/10) if and only if fewer than 310 calls were made |
| SeededStep.OutputRange | crypto/src/seeded_step.rs:50-88 | until then each output is within half a step of the step and at least 1; afterwards none is positive |
| SeededStep.OutputBySeed | crypto/src/seeded_step.rs:50-88 | what every call returns before the overflow: 1 for the first ten, then the step less the remainder, with the dividend's sign, of the first four bytes of the seed hashed n - 10 times, taken as a signed number, modulo half the step plus one |
| SeededStep.SeedAfter | crypto/src/seeded_step.rs:51-72 | the seed after n calls is the start hashed once for each of the calls 10 to 309 among them |
| SeededStep.RemIsRemainder | crypto/src/seeded_step.rs:54-64 | the remainder differs from the dividend by a multiple of the divisor, is smaller than it, and has the dividend's sign |
| SeededStep.CoveredAfterDecades | crypto/src/seeded_step.rs:50-88 | the first 10(k+1) outputs cover at least 10 * 2^k and at most 15 * 2^(k+1) - 20 levels |
| SeededStep.EveryLevelCovered | crypto/src/seeded_step.rs:50-88 | 290 calls reach past every i32 level |
| SeededStep.Step.Next | crypto/src/seeded_step.rs:50-88 | the new state and the output, with the truncating remainder and wrap-around |
| SeededStep.Step.Init | crypto/src/seeded_step.rs:36-47 | the start state, seeded by the hash of both ids and the block hash |
| SeededStep.Gap | crypto/src/seeded_step.rs:55-68 | the random part is at most half a step either way, and none for a step of 1 |
| ProofOfWork.Generate | crypto/src/proof_of_work.rs:65-107 | returns the first passing nonce in cyclic order from its start, within 2^192 rounds if any passes |
| ProofOfWork.Check | crypto/src/proof_of_work.rs:109-134 | accepts exactly the nonces the search accepts for the same key and target; for a whole target s, exactly those whose digest starts with s zero bits, counted from the top of its last byte |
| ProofOfWork.PassesWholeIff | crypto/src/proof_of_work.rs:126-150 | a nonce passes a whole target s if and only if the top s bits of the digest, from the most significant bit of byte 31 down, are zero |
| ProofOfWork.LeadingZerosIff | crypto/src/proof_of_work.rs:126-134 | the number of a digest is below 2^(256-n) if and only if its top n bits are zero |
| ProofOfWork.FromLeReverses | crypto/src/proof_of_work.rs:128 | the number of a digest is the big-endian number of its reversed bytes |
| ProofOfWork.FromLeLast | crypto/src/proof_of_work.rs:128 | one more byte adds that byte times 256 to the power of the bytes before it |
| ProofOfWork.NextDataIsNextNonce | crypto/src/proof_of_work.rs:76-105 | the limb code adds 1 modulo 2^192 to the nonce and leaves the key alone |
| ProofOfWork.EveryNonceComes | crypto/src/proof_of_work.rs:65-107 | every nonce is reached within 2^192 places of any start |
| ProofOfWork.CarryAddsOne | crypto/src/proof_of_work.rs:76-105 | the nested carries over three limbs are one addition modulo 2^192 |
| ProofOfWork.Increment | crypto/src/proof_of_work.rs:76-105 | the in-place code on the 56 bytes |
| ProofOfWork.TargetClosedForm | crypto/src/proof_of_work.rs:136-150 | both shift branches are one formula: (m + 1) * 2^(202 - shift), rounded up, less one |
| ProofOfWork.WholeTarget | crypto/src/proof_of_work.rs:136-150 | a whole target s in 0..255 is 2^(256-s) - 1 |
| ProofOfWork.FractionBetween | crypto/src/proof_of_work.rs:136-150 | every mantissa from 2^53 to 2^54 gives a value above the target for s + 1, and at most that for s if and only if it is below 2^54 |
| ProofOfWork.HigherIsSmallerIff | crypto/src/proof_of_work.rs:136-150 | of two targets the higher is not the larger number if and only if it does not add a fraction with mantissa 2^54 to a whole target; with a larger whole part it is smaller |
| ProofOfWork.TargetByShift | crypto/src/proof_of_work.rs:136-150 | the or fills exactly the bits the shift left clear |
| PeerAdmission.AdmittedBounded | shell/src/peer_manager.rs:844-909 | in every run, connected incoming peers plus admitted handshakes are at most high - 1 + high / 2 (at most high when that is 0 or 1), and permits are conserved, whatever outgoing connections, failures and removals are interleaved |
| PeerAdmission.LimitIsReached | shell/src/peer_manager.rs:951-988 | for every threshold some run reaches that bound |
| PeerAdmission.ThresholdKeptIff | shell/src/peer_manager.rs:1159-1161 | the threshold itself bounds the incoming peers of every run if and only if it is at most 3 |
| PeerAdmission.StepKeepsInv | shell/src/peer_manager.rs:844-909 | every step keeps bound and permits |
| PeerAdmission.P2pPeers.TryAcquireIncomingConnectionPermit | shell/src/peer_manager.rs:1142-1157 | a permit is given if and only if one is free and there is room; otherwise none is consumed |
| PeerAdmission.P2pPeers.TryRemovePeerActor | shell/src/peer_manager.rs:1126-1140 | removes the peer if known, and its address from the potential peers |
| PeerAdmission.P2pPeers.constructor | shell/src/peer_manager.rs:1073-1090 | the number of permits: half the threshold, but one for a threshold of one |
| LogRotation.WhatIsKept | logging/src/file.rs:255-292 | for every run from an empty directory: what can be read is a suffix of all bytes written, all of it until more than keep rotations happened, never less than keep * size bytes from the keep-th rotation on, in at most keep files |
| LogRotation.EveryRunConserves | logging/src/file.rs:158-292 | from any files: dropped bytes followed by readable bytes are the bytes of the files found, oldest first, the current one only when it is not truncated, followed by the bytes of the write operations |
| LogRotation.OpeningKeeps | logging/src/file.rs:139-152 | opening leaves every rotated file alone and the current one too unless it truncates it, and takes its size |
| LogRotation.RotatesIff | logging/src/file.rs:271-292 | after any run a flush rotates once if and only if the current file with the buffer has reached the size limit, and not at all otherwise |
| LogRotation.EveryRunCounts | logging/src/file.rs:158-214 | after r rotations exactly the files 1 to min(r, keep) exist, each at least the size limit |
| LogRotation.RotationMoves | logging/src/file.rs:180-207 | every file moves up by one number, the current one becomes number 1, the last is gone |
| LogRotation.RotationConserves | logging/src/file.rs:158-214 | a rotation loses the dropped file and nothing else, in order |
| LogRotation.FileAppender.RotateNow | logging/src/file.rs:158-214 | the renames in reverse, the deletion and the reopening |
| LogRotation.FileAppender.ShiftFiles | logging/src/file.rs:180-186 | the reverse loop of renames |
| LogRotation.FileAppender.WriteBytes | logging/src/file.rs:256-269 | appends to the buffer, of which any part may reach the file, and counts the bytes |
| LogRotation.FileAppender.FlushNow | logging/src/file.rs:271-292 | empties the buffer and rotates if the file is large enough |
| LogRotation.FileAppender.ReopenIfNeeded | logging/src/file.rs:124-156 | when none is open, opens the file with its content, or empty if it is truncated or new, and takes its size; an open one and every rotated file stay as they are |

## Left out

- `get_live_blocks`, the readers by level range and the other iterators over storage: they would only add easy members.
- Genesis commit recovery and the order of its writes, which puts the flag first; runs start from a committed genesis.
- Shutdown of the worker, a failing channel, and the restart of the protocol runner beyond leaving the loop.
- BatchWorker.PrepareApplyRequest: leaves out the operations, which are read between record and predecessor (`shell/src/chain_feeder.rs:969`) and passed on; a block without any gives an empty list, so they decide nothing.
- RocksDB itself, the byte layout of slots, additional data and commit-log entries, failing reads, and failing writes of headers.
- Several writers of headers at once; the node has one.
- NodeRuns.LookupIsNaiveWalk: that blocks are applied on applied parents is a sufficient condition for its last state; the exact condition, for all states of a run, is `StoppedRuns.RightThroughoutIff`.
- Scheduler.ChainFeeder.ProcessBatchQueue: states the loop with nothing else going on; interleavings with the worker are in the step system.
- ProofOfWork.FractionBetween: the floating-point computation of the mantissa is not modelled; the mantissa is an input in its whole range.
- LogRotation.FileAppender.ReopenIfNeeded: files deleted or truncated by others, and a compression that is still running, are not modelled; compression keeps content.
- PeerAdmission.AdmittedBounded: blacklisting is a free choice, and poisoned locks do not occur.
- The peer count check, discovery, the mempool, head selection, the bootstrapper's state, RPC, IPC and the wire protocol.
- Statistics, timers and logging calls.
