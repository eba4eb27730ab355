# Verification of the network watchtower

The watchtower follows the Fuel network through L1. It downloads L1 blocks concurrently, reassembles blobs into
bundles, reorders the compressed Fuel blocks inside them, and applies each Fuel block to two stores, the chain and
the compression store, which have to stay in step across failures and restarts. This project models that pipeline
in Dafny and proves what it keeps. `dafny verify dfyconfig.toml` checks everything.

## How the model is built

Each component has a value that stands for its state, functions for its operations on that value, and, where the
program updates something in place, a class whose methods are proved equal to those functions. What the code does
not decide is an input: which request finishes next, what a node answers, how many sends still succeed, where an
import is cut short. A run is any sequence of such inputs, and the theorems are about all of them.

| file | component |
|---|---|
| `DownloadQueue.dfy`, `DownloadQueueProofs.dfy`, `DownloadQueueTip.dfy` | concurrent L1 download with in-order emission; the tip of the chain |
| `BundleBuffer.dfy`, `BundleBufferProofs.dfy` | bundles from blobs |
| `BlockBuffer.dfy`, `Downloader.dfy`, `ReorderProofs.dfy` | bundles to an ordered stream of Fuel blocks |
| `Confluence.dfy`, `Pipeline.dfy` | order independence; queue and downloader together |
| `OrderedFetch.dfy` | chunked, buffered GraphQL fetch |
| `Stores.dfy`, `CompressionTransaction.dfy`, `BlockSyncer.dfy`, `BlockSync.dfy`, `CompressionSync.dfy` | the two stores, the transactions over the second, and the three ways they move |
| `SyncTask.dfy`, `SyncTaskProofs.dfy` | start-up, hand-over, streaming, stops and restarts |
| `Replay.dfy`, `RegistryWindow.dfy`, `CountingModel.dfy` | crash-replay; why a windowed registry is enough; a model of the assumed laws |
| `Service.dfy`, `Restarts.dfy` | everything together; what restarts lose |
| `Codec.dfy`, `Wrappers.dfy` | shared values |

### Contracts of the environment

They appear as parameters or hypotheses, never as axioms.

- A compression commit carries one height, the first ever or the successor of the current one
  (`Stores.CommitCompression`); the block importer accepts only the successor of the chain's height
  (`Stores.CommitBlock`). Both commits are atomic.
- Decompression is a function of the committed registry, the chain and the block; execution is a function of the
  chain and the block's components. Neither reads seals.
- A *faithful* L1 node returns a block only for the height it was asked for. In-order emission does not need this;
  statements that do say `Faithful` or `Answers`.
- A height-faithful GraphQL provider returns the compressed block of the height asked for (`Faithful` in
  `CompressionSync.dfy`). Sealed blocks need no such contract: the importer checks them.
- The codecs are arbitrary partial functions. Confluence assumes bundles whose blobs are numbered 0..n-1 with only
  the last marked last, and that agree at shared heights where they decode.
- The network files each entity under its own height; only what says that imports succeed needs it.
- Bundles are posted after their blocks: all of a bundle with a block above c is found at the L1 height of block c or
  later (`Restarts.PostedAfter`). Only what compares restarts needs it.
- The compressor's round-trip law (`Replay.RoundTrips`) and the locality law that decompression reads the registry
  only at the keys a block uses (`RegistryWindow.ReadsOnlyUses`).

### Where the code gives less than one might expect

- The download queue can stop emitting although the node has every block it is asked for. It emits another block
  within 8 such answers if and only if the next block is in flight once the queue has been refilled; otherwise it
  emits nothing under any schedule of such answers (`AnsweredQueueEmitsExactlyWhen`). The ordinary race at the tip,
  where the request for d is answered just before block d exists, leads to such a state (`RaceAtTheTipStalls`),
  because a request answered "not yet" in batch mode, or rate-limited, is not repeated
  (`DroppedHeadFreezesExactlyWhen`). So does a batch whose "not yet" replies for later heights overtake the reply for
  the head of the chain (`HonestNodeCanFreezeTheQueue`); over all completion orders of a truthful node,
  `DrainedBatchFreezesExactlyWhen` says which ones freeze the queue and which leave it polling cleanly.
- Some of these states can still be left if the node denies blocks later; `ProgressBoundary` says which, and
  `SpinsExactlyWhen` which of the others spin without ever suspending.
- The distance between the two heights is not monotone over failing imports: it grows from 0 to 1 exactly when an
  import that extends the chain fails between its two commits with the stores level (`LagMoves`, `LagCanGrow`).
- The first compression commit takes any height, so the order C <= H rests on the provider of compressed blocks. A
  run keeps it at every moment if and only if no start-up accepts a compressed block above the chain
  (`OrderKeptExactlyWhen`; an input that breaks it is in `UnfaithfulProviderBreaksOrder`).
- A restart whose compression height has fallen more than the window behind is rejected at its first compressed
  block, and `LaterSyncFromFetch` says exactly when.
- A blob that comes again while its bundle is incomplete ends the stream (`RepeatsEndStreamExactlyWhen`); after the
  bundle has completed, its blobs start another round and the output stays the same. A complete bundle that does not
  decode, a block in one that does not, and a failed beacon request end it as well (`StreamEndsExactlyWhen`,
  `PipelineEmits`).

## Model

| member | source | states |
|---|---|---|
| DownloadQueue.Queue.StartFrom | crates/downloader/src/download_queue.rs:83-97 | the queue starts in batch mode, with nothing in flight or completed, at the given height |
| DownloadQueue.Queue.QueueDownloads | crates/downloader/src/download_queue.rs:101-107 | the refill loop ends in the state `Refill` gives |
| DownloadQueue.Queue.EmitCompleted | crates/downloader/src/download_queue.rs:145-154 | the emit loop ends in the state `Emit` gives, a failed send included |
| DownloadQueue.Queue.Pass | crates/downloader/src/download_queue.rs:100-155 | one pass through the loop, for every reply, is `Iterate` |
| DownloadQueue.Queue.StreamInner | crates/downloader/src/download_queue.rs:92-156 | any finite part of the loop is `Run` over its schedule |
| DownloadQueueProofs.RefillShape | crates/downloader/src/download_queue.rs:101-107 | refilling requests exactly the next consecutive heights missing to the mode's limit, one each, and touches nothing else |
| DownloadQueueProofs.EmitLosesNothing | crates/downloader/src/download_queue.rs:145-154 | a completed block stays completed or has been emitted |
| DownloadQueueProofs.InOrderEmission | crates/downloader/src/download_queue.rs:92-156 | for any provider and schedule, the emitted numbers are start, start + 1, ... without gap, repeat or reordering |
| DownloadQueueProofs.RefinesSequential | crates/downloader/src/download_queue.rs:92-156 | with fixed answers per height the output is a prefix of a one-after-another downloader's |
| DownloadQueueProofs.NoHeightHeldTwice | crates/downloader/src/download_queue.rs:101-133 | in-flight heights and completed keys are pairwise distinct and at most 8, and filing a block never overwrites one |
| DownloadQueueProofs.PollingNeverGrows | crates/downloader/src/download_queue.rs:62-133 | polling is for ever, and its load never grows until drained, then stays at most 1 |
| DownloadQueueProofs.ReplyWithoutBlock | crates/downloader/src/download_queue.rs:115-142 | in either mode and for any request: "not yet" only switches a batch to polling or resets the next height, a rate limit only drops the request, any other failure ends the stream; nothing is emitted |
| DownloadQueueProofs.BlockReply | crates/downloader/src/download_queue.rs:112-154 | a block is filed under its height, and exactly the run completed from the next height on is sent, as far as the receiver takes it |
| DownloadQueueProofs.StreamEndsExactlyWhen | crates/downloader/src/download_queue.rs:100-155 | over whole runs, the stream ends with an event if and only if that is a request failing other than by a rate limit, or the completed run is longer than the receiver takes |
| DownloadQueueProofs.BatchWindow | crates/downloader/src/download_queue.rs:101-154 | until the first reply that is no block, held heights are exactly [next_to_emit, next_da_height), 8 wide after each refill, with the next block in flight; all but at most 7 of the blocks received have been emitted, and any 8 more emit another |
| DownloadQueueProofs.SpinsExactlyWhen | crates/downloader/src/download_queue.rs:101-154 | a reachable loop head finds no request to wait for exactly when nothing is in flight and completed blocks fill the limit, and then every pass is a no-op |
| DownloadQueueProofs.ProgressBoundary | crates/downloader/src/download_queue.rs:100-155 | some answers of a faithful provider, denials included, emit another block if and only if the next block is in flight or nothing is completed |
| DownloadQueueProofs.AnsweredQueueEmitsExactlyWhen | crates/downloader/src/download_queue.rs:100-155 | from every reachable state, every schedule of at least 8 answers of a node that has each block asked for emits another block if and only if the next block is in flight after the refill; otherwise no schedule of such answers emits one |
| DownloadQueueProofs.CleanPollingForever | crates/downloader/src/download_queue.rs:115-133 | without rate limiting, clean polling stays clean and emits every block as it arrives |
| DownloadQueueProofs.DrainedPollFreezesExactlyWhen | crates/downloader/src/download_queue.rs:101-133 | a drained polling queue that receives a block freezes if and only if next_da_height differs from next_to_emit |
| DownloadQueueProofs.DroppedHeadFreezesExactlyWhen | crates/downloader/src/download_queue.rs:115-138 | a batch whose next block is answered without a block drops that height; it is frozen at once if and only if a later block is waiting, and in any case emits nothing while the node has each block asked for |
| DownloadQueueProofs.RaceAtTheTipStalls | crates/downloader/src/download_queue.rs:115-121 | one "not yet" for the first block leaves a queue that could still emit but never does while the node has each block asked for |
| DownloadQueueProofs.HonestNodeCanFreezeTheQueue | crates/downloader/src/download_queue.rs:115-133 | a truthful node that answers for its head last leaves the queue unable to emit again |
| DownloadQueueTip.DrainedBatchFreezesExactlyWhen | crates/downloader/src/download_queue.rs:92-155 | for every completion order of a truthful node's answers, a polling queue with nothing in flight has emitted the whole chain; once drained, its next request is for an emitted height and freezes it if and only if the last reply was a block after at least two "not yet"; else the next reply leaves it polling cleanly |
| BundleBuffer.BinarySearch | crates/downloader/src/bundle_buffer.rs:71-74 | finds the index if present, else the only insertion point |
| BundleBuffer.IndicesAreConsecutive | crates/downloader/src/bundle_buffer.rs:93-97 | the loop accepts exactly vectors whose indices are 0, 1, 2, ... |
| BundleBuffer.IncompleteBundleBuffers.InsertBlob | crates/downloader/src/bundle_buffer.rs:64-109 | the in-place insertion is `Insert`, for every blob and every error |
| BundleBufferProofs.InsertKeepsWellKept | crates/downloader/src/bundle_buffer.rs:64-109 | stored vectors stay non-empty, strictly increasing, of one bundle, and incomplete |
| BundleBufferProofs.InsertRefinesMaps | crates/downloader/src/bundle_buffer.rs:64-109 | sorted vectors refine a map of maps: same state, same result; duplicates change nothing; completion exactly at {0..n-1} with the greatest marked last |
| BundleBufferProofs.AnyInterleavingReassembles | crates/downloader/src/bundle_buffer.rs:64-109 | after any interleaving without duplicates, a further blob is a duplicate if and only if it has arrived and its bundle is incomplete; a new one yields its bundle, in index order, exactly when it is the last one missing |
| BundleBufferProofs.AnyRedeliveryReassembles | crates/downloader/src/bundle_buffer.rs:64-109 | the same for any sequence of blobs with any repeats: duplicates are those of the unfinished round of a bundle, and each round yields the bundle once |
| BundleBufferProofs.DeliveryHasRounds | crates/downloader/src/bundle_buffer.rs:64-109 | a delivery without duplicates repeats no blob within a round, so what is proved of rounds covers it |
| BundleBufferProofs.FeedHoldsPending | crates/downloader/src/bundle_buffer.rs:64-109 | after any sequence of blobs, repeats included, the buffers hold exactly the blobs of the unfinished rounds |
| BlockBuffer.BlockBuffer.Push | crates/downloader/src/block_buffer.rs:15-17 | files the block under its height, replacing an earlier version |
| BlockBuffer.BlockBuffer.PruneBelow | crates/downloader/src/block_buffer.rs:19-22 | keeps exactly the heights at or above the mark |
| BlockBuffer.BlockBuffer.PopHeight | crates/downloader/src/block_buffer.rs:24-38 | removes and returns the first entry exactly when its key is the height |
| Downloader.Downloader.PushBundle | crates/downloader/src/lib.rs:184-188 | pushes the decoded blocks in order, stopping at the first that does not decode |
| Downloader.Downloader.SendReady | crates/downloader/src/lib.rs:192-199 | the send loop is `Drain`, with a lost receiver and the end of u32 heights |
| Downloader.Downloader.ProcessBlock | crates/downloader/src/lib.rs:167-202 | one L1 block's worth of blobs is `ProcessFetched`, every error included |
| Downloader.Downloader.StreamInner | crates/downloader/src/lib.rs:204-222 | the rotating loop over L1 blocks is `StreamBlocks` |
| ReorderProofs.AbsorbReorders | crates/downloader/src/lib.rs:184-199 | one bundle: the buffer holds exactly the pushed heights above the next one, which is unpushed; the blocks sent are the latest versions of the maximal pushed run |
| ReorderProofs.ReorderBuffer | crates/downloader/src/lib.rs:184-199 | over any bundles: one gap-free run in order, each height once, in the version that was latest when the run reached it; it ends only when u32 heights do or the receiver is gone, after the number of blocks it takes |
| Confluence.DownloaderEmits | crates/downloader/src/lib.rs:168-202 | any order of any selection of blobs, each again only in a later round of its bundle, of bundles that decode once complete, emits the canonical blocks from start to the first height no fully delivered bundle covers |
| Confluence.SameBlobsSameBlocks | crates/downloader/src/lib.rs:168-202 | two deliveries of the same set of blobs, in any orders and with any such repeats, emit the same blocks |
| Confluence.MoreBlobsExtend | crates/downloader/src/lib.rs:168-202 | more blobs, in any order, only extend the output |
| Confluence.OffenceEndsStream | crates/downloader/src/lib.rs:180-187 | a repeated blob of an unfinished round, one that completes a bundle that does not decode, and one that completes a bundle with a block that does not decode, each end the stream with their error, and send nothing |
| Confluence.StreamEndsExactlyWhen | crates/downloader/src/lib.rs:168-202 | for any blobs with any repeats and anything that does not decode: the covered run of the blobs before the first that offends is sent; if the stream still listens, it ends with that offence |
| Confluence.RepeatsEndStreamExactlyWhen | crates/downloader/src/lib.rs:168-202 | the stream ends with the duplicate error if and only if the first blob that offends repeats within a round and the stream still listens by then |
| Confluence.UnreadableBlobEndsStream | crates/downloader/src/bundle_buffer.rs:64-70 | a blob whose header cannot be read ends the stream, wherever it comes |
| Confluence.RoundsAreClean | crates/downloader/src/lib.rs:180-187 | where every bundle decodes, nothing offends if and only if nothing repeats within a round |
| Pipeline.LookaheadPairing | crates/downloader/src/lib.rs:204-222 | the i-th call processes L1 blocks start + i and start + i + 1; every emitted block but the newest gets one call |
| Pipeline.FuelBlocksInOrder | crates/downloader/src/lib.rs:168-222 | whatever L1 contains, the Fuel heights sent are consecutive from the start |
| Pipeline.StreamProcessesGathered | crates/downloader/src/lib.rs:168-222 | how blobs are spread over L1 blocks does not matter |
| Pipeline.FailedRequestEndsStream | crates/downloader/src/lib.rs:168-222 | a stream is one pass over the blobs gathered up to the first beacon request that fails, which ends it with its error unless something else has |
| Pipeline.FirstFailureDecides | crates/downloader/src/lib.rs:168-180 | if the k-th request is the first that fails, any longer stretch of L1 gives what the first k pairs give, and then the error |
| Pipeline.PipelineEmits | crates/downloader/src/lib.rs:130-222 | for any request schedule, any beacon failures and any order and repeats of blobs, the pipeline sends the canonical run covered before the first offence, and while it listens ends with that offence or else with the first failed request |
| OrderedFetch.RangesPartition | crates/block-syncer/src/block_syncer.rs:158-166 | for every u32 range, the chunk ranges are non-empty, unsaturated, 40 long except perhaps the last, and spell out exactly the range |
| OrderedFetch.RefinesSequential | crates/block-syncer/src/block_syncer.rs:158-185 | for every completion order, what is delivered is a prefix of the sequential fetch cut before the first failed chunk, and all of it at the end, with at most 8 outstanding |
| OrderedFetch.FetchTerminates | crates/block-syncer/src/block_syncer.rs:158-185 | the fetch never deadlocks, and every step brings it closer to its end |
| OrderedFetch.CutAtFirstFailedChunk | crates/block-syncer/src/block_syncer.rs:219-250 | with a height-faithful fetcher, what a sequential fetch delivers, and by `RefinesSequential` the concurrent one, are the items of the heights up to the first failed chunk |
| OrderedFetch.Forward | crates/block-syncer/src/block_syncer.rs:240-250 | the forwarding task sends a prefix of all items, as long as the receiver lasts |
| OrderedFetch.ForwardedIsSequential | crates/block-syncer/src/block_syncer.rs:219-250 | what the forwarding task sends of the answers in order is the sequential fetch |
| Stores.CommitKeepsCompressionOk | crates/block-syncer/src/compression_database.rs:67-75 | a linked commit keeps the store contiguous and its registry the fold of what was committed |
| BlockSyncer.BlockSyncer.CommitChanges | crates/block-syncer/src/compression_database.rs:55-75 | commits exactly when the height is first or linked, else changes nothing |
| CompressionTransaction.Transaction.CommitInto | crates/block-syncer/src/block_syncer.rs:381-405 | a nested transaction commits into the one around it, which then reads as the nested one did |
| BlockSyncer.BlockSyncer.ApplyCompression | crates/block-syncer/src/block_syncer.rs:377-408 | applying a block through a nested transaction changes neither store, fails or not, and yields the block and its registrations |
| BlockSyncer.BlockSyncer.DecompressBlock | crates/block-syncer/src/block_syncer.rs:410-428 | decompression through its own transactions reads exactly the committed registry |
| BlockSyncer.BlockSyncer.ProduceBlock | crates/block-syncer/src/block_syncer.rs:321-345 | decompression, mint split, execution: `Produce` |
| BlockSyncer.BlockSyncer.ImportBlockFromDa | crates/block-syncer/src/block_syncer.rs:288-375 | the import with its skip, its two commits and every place it can fail is `Import` |
| BlockSyncer.BlockSyncer.SyncBlocksFromGraphql | crates/block-syncer/src/block_syncer.rs:187-196 | commits received blocks until the importer rejects one |
| BlockSync.SyncCommitsRun | crates/block-syncer/src/block_syncer.rs:187-196 | exactly the longest run of received blocks that continues the chain is committed, under their heights, and the sync succeeds if and only if that is all of them |
| BlockSync.SyncFromFetch | crates/block-syncer/src/block_syncer.rs:148-196 | fetch and sync together: the blocks from H + 1 up to the first whose number is not its height, the first failed chunk or the remote height, are committed |
| BlockSyncer.BlockSyncer.SyncCompressionFromGraphql | crates/block-syncer/src/block_syncer.rs:252-275 | the receive loop is `SyncItems` |
| CompressionSync.ReceivedItems | crates/block-syncer/src/block_syncer.rs:221-250 | at any moment of the concurrent fetch, however many items the receiver takes, it has those of a range from the start to a height never above the target; once all is done, to the first failed chunk or the target |
| CompressionSync.StartHeightIsLeast | crates/block-syncer/src/block_syncer.rs:200-217 | the sync starts at the least height that is at least 1, in the window, and above C, if there is one; else at the last u32 height |
| CompressionSync.FirstSyncFromFetch | crates/block-syncer/src/block_syncer.rs:198-275 | fetch and sync together, no compression data yet: from that start, exactly the maximal run [a, b) of present blocks after the leading gaps is committed, up to the first missing block, the first failed chunk or the target |
| CompressionSync.LaterSyncFromFetch | crates/block-syncer/src/block_syncer.rs:198-275 | the same with data up to c: the start is c + 1 if and only if the window starts no later and c + 1 is a u32; then the maximal run from there is appended; else nothing is committed, and the sync fails if and only if the first block asked for is present and received |
| CompressionSync.LaterSyncRejectedExactlyWhen | crates/block-syncer/src/block_syncer.rs:200-275 | with data up to c, a commit is rejected if and only if the start is not c + 1 and the first item is present, and then nothing changed; else the maximal run is committed |
| SyncTask.IntoTask | bin/src/cli/run/sync_task.rs:46-88 | start-up: two syncs, stop points, and the hand-over of C + 1 and of the L1 height of block C; what it is in each case is `StreamsExactlyWhen` |
| SyncTaskProofs.StreamsExactlyWhen | bin/src/cli/run/sync_task.rs:46-88 | for every start-up, the service streams if and only if the chain has a height, neither sync is cut off or fails, C exists, has a successor and its block is on chain; then from C + 1 and that block's L1 height |
| Service.StartUpStreamsExactlyWhen | bin/src/cli/run/sync_task.rs:46-88 | on the network, a start-up streams if and only if it is not cut off, the blocks received continue the chain, C has a successor, and a first compressed block received is that of C + 1 |
| SyncTask.RunTask | bin/src/cli/run/sync_task.rs:92-122 | the running service imports the stream until an import fails |
| SyncTaskProofs.TaskStopsAtFirstFailure | bin/src/cli/run/sync_task.rs:92-122 | the task imports block after block, skipped or not, and the first import that fails ends it |
| SyncTaskProofs.TwoStoresStayInStep | bin/src/cli/run/sync_task.rs:46-122 | over every run with a height-faithful provider, C <= H, and the streamed height is C + 1 |
| SyncTaskProofs.FetchedItemsAreInRange | crates/block-syncer/src/block_syncer.rs:198-250 | what a start-up assumes of its compressed blocks is what the concurrent fetch of a height-faithful provider gives, at any moment |
| SyncTaskProofs.DeliverCommits | crates/block-syncer/src/block_syncer.rs:292-375 | a successful import ends at (max(H, C + 1), C + 1); a failed one leaves both stores or only the chain one ahead |
| SyncTaskProofs.EveryImportIsLinked | crates/block-syncer/src/block_syncer.rs:292-375 | in every reachable state an import commits exactly H + 1 with a default seal and exactly C + 1, and never reaches the skip branch or an on-chain import without compression commit |
| SyncTaskProofs.MintIsSplitOff | crates/block-syncer/src/block_syncer.rs:323-345 | an entity is produced if and only if the decompressed transactions end in a mint and execution of the others, with its recipient and gas price, gives that entity |
| SyncTaskProofs.ChainGrowsExactlyWhen | crates/block-syncer/src/block_syncer.rs:292-367 | an import changes the chain if and only if the block is above it, produces an entity of height H + 1, and nothing fails before the commit; then it appends that entity with the default seal |
| SyncTaskProofs.ImportExactly | crates/block-syncer/src/block_syncer.rs:288-375 | for any stores, with or without compression data, any block and any fault: exactly when an import is refused, skipped, changes the chain, changes the compression store and by what, and reports a commit |
| SyncTaskProofs.SyncAcceptsRun | crates/block-syncer/src/block_syncer.rs:252-275 | for any received items: after the gaps skipped while there is no data, the linked run of present blocks is accepted, and the sync fails if and only if a present block follows it |
| SyncTaskProofs.LagMoves | crates/block-syncer/src/block_syncer.rs:292-372 | a success lowers the lag by one until zero; it grows exactly when the stores are level, the block extends the chain, and the import fails between the commits |
| CountingModel.LagCanGrow | crates/block-syncer/src/block_syncer.rs:366-372 | an import for which it does grow |
| SyncTaskProofs.KnownBlocksAreSkipped | crates/block-syncer/src/block_syncer.rs:292-308 | importing b changes nothing and is skipped if and only if b is at or below C |
| SyncTaskProofs.ReimportsChangeNothing | crates/block-syncer/src/block_syncer.rs:292-308 | any sequence of imports at or below C, with any faults, changes nothing |
| SyncTaskProofs.HeightsNeverDrop | crates/block-syncer/src/block_syncer.rs:288-375 | no sequence of imports, with any faults, lowers either height |
| SyncTaskProofs.StoresStayWellFormed | crates/block-syncer/src/block_syncer.rs:377-408 | over every run and any provider both stores stay contiguous and nothing of a failed import leaks into the registry |
| SyncTaskProofs.RegistryWhenDecompressing | crates/block-syncer/src/block_syncer.rs:315-321 | when block b is decompressed the registry is the fold of the contiguous heights first..b-1 |
| SyncTaskProofs.SyncKeepsOrderExactlyWhen | crates/block-syncer/src/block_syncer.rs:252-275 | for any received items, C ends at or below H if and only if every block the sync accepts is |
| SyncTaskProofs.OrderKeptExactlyWhen | bin/src/cli/run/sync_task.rs:46-122 | over every run with any provider, the stores are in step at every moment if and only if no start-up accepts a compressed block above the chain |
| SyncTaskProofs.UnfaithfulProviderBreaksOrder | crates/block-syncer/src/block_syncer.rs:252-271 | an unfaithful first compressed block puts C above H, and the hand-over refuses to stream |
| Replay.CrashReplay | crates/block-syncer/src/block_syncer.rs:288-375 | imports cut short anywhere and restarted from C + 1 reach, at each height, the stores of the uninterrupted run |
| Replay.RunsFollowTheNetwork | bin/src/cli/run/sync_task.rs:46-122 | over every run of all phases fed from the network, the stores hold exactly the network's entities, compressed blocks and registry |
| Replay.RunsAgree | bin/src/cli/run/sync_task.rs:46-122 | two differently interrupted runs agree on every entity, and on the stores at equal heights |
| Replay.FaultFreeImportSucceeds | crates/block-syncer/src/block_syncer.rs:288-375 | an import of the next network block that nothing cuts short succeeds |
| Replay.OnNetworkIsWellFormed | crates/block-syncer/src/compression_database.rs:67-75 | stores on the network are contiguous and the registry is the fold of what they hold |
| RegistryWindow.LateFoldAgrees | crates/block-syncer/src/block_syncer.rs:202-217 | folding registrations from a later height changes a lookup if and only if the key was written before that height and not since |
| RegistryWindow.WindowResolvesUses | crates/block-syncer/src/block_syncer.rs:202-217 | if used keys were written within the window, the windowed registry resolves them as the full one |
| RegistryWindow.WindowedRoundTrip | crates/block-syncer/src/block_syncer.rs:202-217 | so the round-trip law carries over to the windowed registry for blocks above H |
| RegistryWindow.FirstBlockInWindowExactlyWhen | crates/block-syncer/src/block_syncer.rs:202-217 | the first block of a cold start is in the window if and only if at most one gap comes before it, or none if the window spans the whole chain |
| CountingModel.LawsHaveAModel | crates/block-syncer/src/block_syncer.rs:410-428 | the laws assumed of decompression hold together for a machine that depends on the registry, for every window |
| RegistryWindow.ColdStartFollowsTheNetwork | bin/src/cli/run/sync_task.rs:46-122 | from no compression data, a start-up whose first compressed block is within the window, and everything after, follows the network |
| RegistryWindow.ColdStartStreams | bin/src/cli/run/sync_task.rs:46-88 | a start-up without compression data that finds a block streams if and only if it is not cut off |
| Service.ServiceStaysInStep | bin/src/cli/run/sync_task.rs:46-122 | over any number of sessions with any L1 content, schedules and faults, every import is of height C + 1 and the stores stay in step |
| Service.WatchtowerFollowsTheNetwork | bin/src/cli/run/sync_task.rs:46-122 | if GraphQL and L1 carry the network, then over any number of sessions, every schedule, blob order and pattern of failures, the stores never hold anything else than the network's entities and registry |
| Service.FaultFreeStreamIsImported | bin/src/cli/run/sync_task.rs:92-122 | a canonical stream that no fault cuts short is imported to its end: C rises by its length, H to at least C |
| Service.WatchtowerCatchesUp | bin/src/cli/run/sync_task.rs:46-122 | after any such sessions, one whose start-up runs through and that is not cut short streams, downloads from the L1 height of block C, and ends with C just below the first height not covered by a bundle fully delivered before the first offence or failed request, H at least there, both on the network |
| Restarts.SameCoverage | bin/src/cli/run/sync_task.rs:72-82 | above C, the blobs from the L1 height of block C on cover what the blobs from any earlier height cover |
| Restarts.RestartsLoseNothing | bin/src/cli/run/sync_task.rs:46-122 | after any sessions, an uncut session over a fixed L1, whose beacon may fail, ends where all of that L1 below what it has processed reaches, although it downloads only from the L1 height of block C on |
| Restarts.CaughtUpAgreeExactlyWhen | bin/src/cli/run/sync_task.rs:46-122 | two services caught up with the same L1 hold the same compression data if and only if neither began its last session above where the other ended |
| Restarts.HistoriesAgree | bin/src/cli/run/sync_task.rs:46-122 | fed by the same L1 alone, a service interrupted and restarted any number of times ends with the compression data of one that never was |
| CountingModel.CountingStoresFollow | crates/block-syncer/src/block_syncer.rs:288-375 | stores, a network and a machine that meet what the service theorems start from |

## Left out

- DownloadQueue.Queue.Pass: L1 heights are unbounded; the u64 counters would take 2^64 blocks to overflow. Sleeps and logging are not modelled.
- DownloadQueue.Queue.StreamInner: covers finite parts of an infinite loop; a pass that suspends is an event, so real time and fairness do not appear.
- Downloader.Downloader.ProcessBlock: the beacon request, the hex decoding and the versioned-hash filter are one oracle that yields the blobs for a pair of L1 blocks.
- OrderedFetch.Forward: the channel's capacity and the two tasks' interleaving are not modelled; the receiver takes a number of items and is then gone.
- BlockSyncer.BlockSyncer.ImportBlockFromDa: storage, execution and importer errors are a parameter that says where the import stops; execution events and transaction status are not modelled.
- BlockSyncer.BlockSyncer.SyncBlocksFromGraphql: waiting for the relayer is not modelled; a failure of it is a cut of the phase.
- SyncTask.IntoTask: the items a start-up receives are an input; what the fetch can deliver is the subject of `OrderedFetch`, `BlockSync` and `CompressionSync`. That L1 from the hand-over height on contains the blocks above C is a hypothesis about L1.
- SyncTaskProofs.RegistryWhenDecompressing: what decompression itself might write through its transactions is not modelled; they are dropped.
- RegistryWindow.WindowedRoundTrip: the temporal registry's timestamps and eviction are represented by last-write lookup and the recency hypothesis, counted in blocks.
- Blocks committed by other parts of the node between imports, so that the chain only moves through this service.
- Bit layouts of blobs, bundles, compressed blocks and seals; HTTP, JSON-RPC and GraphQL; configuration and the command line; the version check of the `fault-proving` feature.
