# Alpamayo storage: model and proofs

Alpamayo keeps a rolling window of recent Solana blocks. One writer appends at
the front, backfills at the back and evicts. Several reader threads replay the
writer's broadcast log and serve requests from their own copies, the block
files and RocksDB. This project models the storage engine, the stream assembly
in front of it and the paging on top of it, and proves what they keep over
every run.

The properties were proved about a model of the code. `dafny verify
dfyconfig.toml` checks all of it.

## Modules

| file | what it models |
|---|---|
| `Assembly.dfy`, `StreamStatuses.dfy` | a slot's transactions and metadata, arriving in any order, become one block; which statuses are passed on |
| `Memory.dfy`, `MemoryRuns.dfy`, `MemoryChains.dfy`, `MemoryVerdicts.dfy` | fork resolution: one verdict per slot, in slot order, by walking parent links; the verdict as a function of what the stream has said |
| `WriteLoop.dfy` | the writer's event loop: stream, HTTP refetches, catch-up, backfill, ordered pushes |
| `Files.dfy` | the two-ended circular allocator over a file, and the choice among files |
| `Blocks.dfy`, `BlockQueries.dfy`, `PushGuards.dfy` | the slot ring, its log-replayed replicas, `get_blocks` with the in-process overlay, the push guards |
| `ValidatedRead.dfy`, `StaleRead.dfy`, `Reopen.dfy` | writer and reader interleaved byte by byte, with the re-check of `first_available`; the one run it cannot catch; the store rebuilt after a stop at any point |
| `Codec.dfy`, `Wire.dfy`, `BlockCodec.dfy`, `BlockReader.dfy`, `EndToEnd.dfy` | varints, index values, keys, the protobuf encoder with transaction offsets, a reader of stored blocks, getTransaction from index row to bytes |
| `Index.dfy` | what pushes write to RocksDB and evictions delete |
| `AddressScan.dfy`, `Paging.dfy`, `PageContents.dfy`, `InProcess.dfy`, `PagingBounds.dfy` | getTransactionsForAddress: the scan, the page loop, the tokens, what a page holds and leaves out, the entries of the in-process block, the filters' slot bounds |
| `Publication.dfy`, `ProcessedSlots.dfy` | a slot is published when all readers have reported it, under any schedule |
| `Recent.dfy` | a reader's index of the last 300 heights |

Code that updates state in place is a class or a method with loops here
(`StorageMemory`, `StorageFile`, `StoredBlocksWrite`, `StoredBlocksRead`,
`Loop`, `IndexStore`, `SharedSlots`, `StreamSource`, `StorageProcessed`, the
scan and page loops). Each method is proved against a function of the old
state, and the theorems over whole runs are lemmas about those functions.
RocksDB is a sequence of byte pairs in key order, the broadcast channel a
sequence of messages, a file an array of bytes.

The varints and length-delimited records follow the sections "Base 128 Varints"
and "Length-Delimited Records" of the Protocol Buffers Encoding specification.

## What the environment is assumed to do

- Slots reported by the stream are positive, a parent lies below its child, a
  slot has one block, confirmations rise, and each slot has one created bank.
- `http_concurrency` and `backfill_upto` are positive.
- The ring has at least one cell and the loaded records fit into it.
- Storage files are configured in the order of their ids, which the read side
  relies on (src/storage/files.rs:83-91).
- An encoded block is not empty.
- Hashed keys of different transactions and addresses differ, and serialized
  transaction errors are not empty.
- `Vec::with_capacity(n)` has capacity exactly `n`, which the scans use as a limit.
- Atomic loads and stores, the message log and file bytes are sequentially
  consistent.

## Where the code falls short of a property

Each is proved with its exact condition or a concrete input.

- The allocator reads `head == tail` as empty, so a write that fills the gap to
  the byte lets the next write overwrite live blocks. The ring stays safe to
  write to exactly as long as it is empty or its ends differ
  (`Files.SafeIffEndsApart`, `Files.EndsMeetIff`, `Files.ExactFillLosesABlock`).
- An empty file whose ends meet past 0 does not wrap a front write, which then
  runs over the end of the file (`Files.StorageFile.WriteFront`,
  `Files.EmptyFileOverflows`); and `pop_block` refuses a block at the back while
  `head` sits at the end of the file (`Files.StorageFile.Pop`).
- A front push into a ring emptied once publishes `first_available` only if the
  tail happens to be cell 0 (`Blocks.StoredBlocksWrite.PushBlockFront`,
  `Blocks.EmptiedRingStaysHidden`).
- A `get_blocks` scan that starts above the newest slot lands on an unrelated
  cell; its answer is right exactly when that cell is empty or the scan from it
  meets no block (`BlockQueries.AnswerIsRightIff`). The in-process overlay does
  not change this: from the newest slot up its answer is right under the same
  condition, in rings that are full and in rings that are not
  (`BlockQueries.OverlayIsRightIff`, `BlockQueries.OverlayAboveRingMisses`).
- A read that passes the re-check can be wrong if the slot was evicted and then
  backfilled again since the look-up, and one more back push lowered
  `first_available` below it (`StaleRead.StaleReadIsServed`); otherwise it never
  is (`ValidatedRead.ValidatedReadIsExact`).
- A backfill request that ends during a catch-up is thrown away and never
  repeated, so backfilling stops above that slot (`WriteLoop.Loop.CatchUp` says
  which, `WriteLoop.CatchUpLosesABackfillSlot` is such a run); and the slot
  `backfill_upto` itself is not fetched when the ring's back is
  `backfill_upto + 1` (`WriteLoop.Loop.Backfill`).
- `push_block_back` without room in the files leaves the block's index entries
  behind; over a whole run the indexes are exact if and only if that never
  happened (`Index.PushBackIff`, `Index.ConservationIff`).
- With several readers, a confirmed slot whose finalization, or a later one,
  comes earlier in the log may never be published (`Publication.NeverLostIff`).
  A catch-up announces the node's finalized slot before the backlog, so this
  order does occur.
- The writer publishes the ring's front slot at startup before any reader has
  reported it (`Publication.PublishedByAll`), and before front slots are
  reverted. The published slot never falls in any schedule if and only if no
  confirmation lies below that slot, which holds after reverting at most one
  front slot (`Publication.NeverFallsIff`).
- A pagination token whose entry is not in the index loses entries of other
  slots exactly when some of them lie on the token's skipped side
  (`Paging.SkipIsRestIff`, `Paging.SkipLosesAnEntry`).
- An entry served from the in-process block is such a token until the block is
  stored: resuming behind it is right if and only if it is the last of its block
  and no older entry is on the skipped side of its index; the rest of its block
  is lost too otherwise, between the batches of one page as between pages
  (`InProcess.ResumeInProcessIff`, `InProcess.SecondPageIsEmpty`). And the
  in-process entries ignore the lower end of the requested range
  (`InProcess.FirstListingIff`).
- A slot filter is enforced by its bounds alone, which misread an `eq` that
  other bounds reject, negative upper bounds, and `gt` at the largest number
  (`PagingBounds.SlotFilterIff`, `PagingBounds.SlotFilterMisreadExample`).
- A block of unknown height is let into a ring of skipped slots, and the next
  push then panics (`PushGuards.UnknownHeightPanics`).
- A transaction of a block that is processed but not yet confirmed is reported as
  finalized (`Recent.LevelIsRightIff`).
- The transaction index value cannot tell an empty serialized error from none
  (`Codec.TransactionRoundTrip`).

## Model

| member | source | states |
|---|---|---|
| Memory.StorageMemory.AddProcessed | src/storage/memory.rs:97-101 | recording a block changes the deque as the specification says, padding it at either end to stay contiguous, and ignores slots already reported |
| Memory.StorageMemory.SetDead | src/storage/memory.rs:103-108 | marks the slot dead; the assertion holds whenever the slot is not confirmed |
| Memory.StorageMemory.SetConfirmed | src/storage/memory.rs:110-118 | marks the slot confirmed and moves `confirmed`; both assertions hold for rising confirmations of slots not dead |
| Memory.StorageMemory.PopConfirmed | src/storage/memory.rs:120-202 | the loops over the deque compute the specified pop; the final `panic!` is dead code and the inner walk ends |
| Memory.AddSlotKeeps | src/storage/memory.rs:70-95 | the deque stays contiguous, keeps what it knew, never starts below `gen_next_slot`, and holds the slot exactly when it has not been reported |
| Memory.RecordKeeps | src/storage/memory.rs:97-118 | the invariant survives every legal message |
| Memory.PopKeeps | src/storage/memory.rs:120-202 | a pop answers exactly while a confirmed slot waits, reports slot `gen_next_slot` and moves on by one |
| Memory.FirstConfirmedIs | src/storage/memory.rs:127-134 | the scan finds the least confirmed slot of the deque |
| MemoryRuns.OrderedEmission | src/storage/memory.rs:120-202 | over every run verdicts number the slots consecutively from the first one mentioned, no gap and no repeat |
| MemoryRuns.DrainReports | src/storage/memory.rs:120-202 | draining ends and leaves `gen_next_slot` right after the last confirmed slot, every slot up to it reported once in order |
| MemoryRuns.ForkSoundness | src/storage/memory.rs:136-202 | over every run a block is reported only for a confirmed slot or an ancestor of one along recorded parents, a dead slot only if the stream said so or it lies strictly between a chain block's parent and that block |
| MemoryChains.NeverAborts | src/storage/memory.rs:97-118 | when confirmations rise and no slot is both dead and confirmed, no assertion fires in any run |
| MemoryChains.ChainLinkage | src/storage/memory.rs:136-174 | after a block that is not itself confirmed only dead verdicts follow until the next block, whose parent it is |
| MemoryChains.CompleteChainReportedExactly | src/storage/memory.rs:136-202 | when the chain of the first confirmed slot is fully recorded, the pops up to it report exactly that chain and every other slot as dead |
| MemoryVerdicts.AlwaysTied | src/storage/memory.rs:70-202 | over every run the deque says of each slot not yet reported what the stream said, dead and confirmed marks and blocks, except for slots already passed by the confirmed chain |
| MemoryVerdicts.VerdictsAreJudged | src/storage/memory.rs:120-202 | over every run the next pop answers exactly if a slot not yet reported is confirmed, and its verdict is the one the messages dictate: found on the reported chain of the lowest such slot, dead off it, and missed only where that chain leads to an unknown slot and the stream did not call the slot dead |
| MemoryVerdicts.DeadIsNotMissed | src/storage/memory.rs:103-108 | over every run, also with several blocks for a slot, a slot called dead before its report is never reported missed |
| Files.StorageFile.WriteBack | src/storage/files.rs:294-306 | refuses the buffer exactly when no unused stretch of the file can hold it, and otherwise places it below the tail or at the end of the file; the file stays well laid out unless the gap is filled to the byte |
| Files.StorageFile.WriteFront | src/storage/files.rs:308-331 | the same above the head with the wrap to 0; exactly when a write runs over the end of the file, and the head and bytes it then leaves |
| Files.FreeSpaceIsRoom | src/storage/files.rs:286-292 | the space check passes exactly the lengths for which some stretch of positions outside the used part holds that many bytes |
| Files.LiveInUse | src/storage/files.rs:286-292 | every byte of a live chunk lies in the used part |
| Files.PlacedAtItsEnd | src/storage/files.rs:294-331 | a write goes right next to its end of the ring if that stretch is unused, and around the end of the file only otherwise |
| Files.WriteOccupies | src/storage/files.rs:294-331 | a write takes its own bytes into use, and beyond them only what it skips at the end of the file |
| Files.PopReleases | src/storage/files.rs:244-263 | a pop takes every byte of the released chunk out of use |
| Files.EmptyFileOverflows | src/storage/files.rs:308-331 | a block written and released, and then a write that fits but runs over the end of the file |
| Files.StorageFile.Pop | src/storage/files.rs:244-263 | releases the oldest or newest chunk and leaves the bytes alone; refuses exactly a back pop while `head` is at the end of the file |
| Files.StorageFilesWrite.FileIndexForNewBlock | src/storage/files.rs:213-228 | the nearest file in round-robin order that takes new blocks and has an unused stretch for this one; none only if no file has |
| Files.StorageFilesWrite.PushBlock | src/storage/files.rs:189-211 | writes to that nearest file only and refuses only if no file has room; its ends, bytes and chunks afterwards, every other file untouched |
| Files.StorageFilesWrite.PopBlock | src/storage/files.rs:238-272 | releases the chunk in the file with that id only, unknown ids refused |
| Files.WriteKeeps | src/storage/files.rs:286-331 | a write keeps the two-ended layout exactly when it does not make the ends meet |
| Files.WriteIsApart | src/storage/files.rs:286-331 | an admitted write touches no live chunk, across both kinds of wrap gap |
| Files.PopBackKeeps | src/storage/files.rs:244-263 | releasing the oldest chunk keeps the layout, wrap gap included |
| Files.PopFrontKeeps | src/storage/files.rs:244-263 | releasing the newest chunk keeps the layout |
| Files.ReopenKeeps | src/storage/files.rs:93-108 | the ends rebuilt at startup from the oldest and newest chunk describe the same layout |
| Files.SafeIffEndsApart | src/storage/files.rs:286-292 | every write accepted next avoids every live chunk if and only if the ring is empty or its ends differ |
| Files.EndsMeetIff | src/storage/files.rs:294-331 | which write lengths make the ends meet, in terms a caller can see beforehand |
| Files.ExactFillLosesABlock | src/storage/files.rs:286-331 | a concrete run that fills the gap and then overwrites a live block |
| Files.WriteOutcome | src/storage/files.rs:294-331 | after an accepted write the file is safe exactly unless the gap was filled, and holds the buffer |
| Files.AllocatorSafety | src/storage/files.rs:238-331 | over every successful run live chunks stay inside the file, pairwise apart, with the bytes written for them, and are what a double-ended queue would hold |
| Blocks.StoredBlocksWrite.constructor | src/storage/blocks.rs:23-69 | the ring loaded from disk holds the loaded records, lowest slot first |
| Blocks.StoredBlocksWrite.IsFull | src/storage/blocks.rs:119-122 | full exactly when every cell holds a record |
| Blocks.StoredBlocksWrite.GetFrontHeight | src/storage/blocks.rs:166-178 | the backward scan finds the newest record that is not dead |
| Blocks.StoredBlocksWrite.GetBackHeight | src/storage/blocks.rs:134-159 | the forward scan finds the oldest record that is not dead |
| Blocks.StoredBlocksWrite.PushBlockFront | src/storage/blocks.rs:241-254 | appends one record and one message, or fails exactly when full; `first_available` changes only in an empty ring whose tail is cell 0 |
| Blocks.EmptiedRingStaysHidden | src/storage/blocks.rs:241-254 | a ring emptied once and filled again, with no slot published |
| Blocks.StoredBlocksWrite.GetStoredBoundaries | src/storage/blocks.rs:124-132 | one pass over the cells finds the lowest and highest stored block of every file that has one |
| Blocks.StoredBlocksWrite.PushBlockBack | src/storage/blocks.rs:203-216 | the same at the back, always publishing |
| Blocks.StoredBlocksWrite.PopBlockBack | src/storage/blocks.rs:271-281 | removes the oldest record and publishes the next one as first available |
| Blocks.StoredBlocksWrite.PopBlockFront | src/storage/blocks.rs:283-291 | removes the newest record and publishes nothing |
| Blocks.LogKeeps | src/storage/blocks.rs:203-291 | replaying any legitimate log keeps slots consecutive and within capacity |
| Blocks.StoredBlocksRead.constructor | src/storage/blocks.rs:94-117 | a replica starts as the writer's ring with the times of its live records |
| Blocks.StoredBlocksRead.Replay | src/storage/read.rs:170-181 | after any prefix of the log the replica holds what the writer held at that message, its time index exactly the live times |
| Blocks.StoredBlocksRead.GetBlockLocation | src/storage/blocks.rs:370-392 | the modular lookup equals a linear search, and `SlotMismatch` never occurs |
| Blocks.SearchFinds | src/storage/blocks.rs:370-392 | in consecutive slots a linear search is slot arithmetic |
| Blocks.StoredBlocksRead.GetBlocks | src/storage/blocks.rs:394-445 | the circular scan computes the stated function of the sequence, for every start |
| BlockQueries.StartWithinRing | src/storage/blocks.rs:394-445 | from oldest to newest slot the answer is the sequence filtered by range and deadness, cut at the limit |
| BlockQueries.AskedIs | src/storage/blocks.rs:394-445 | slot by slot: slots of the range that hold a block, rising and within the limit, none left out but behind the last of a full answer |
| BlockQueries.AnswerIsRightIff | src/storage/blocks.rs:394-445 | for every start from the oldest slot up the answer is what was asked if and only if the start is not above the newest slot, or its cell is empty, or the scan from that cell meets no block up to its end |
| BlockQueries.StartAboveRingMisses | src/storage/blocks.rs:422 | a start above the newest slot that is answered with an unrelated slot |
| BlockQueries.OverlayInvisible | src/storage/read.rs:865-906 | the answer while the newest slot is in process equals the answer after its push, both request forms, dead slots and evictions included |
| BlockQueries.OverlayIsRightIff | src/storage/read.rs:865-906 | for every start from the oldest slot up the answer with the newest slot in process is what was asked if and only if the start lies below the newest slot, or its cell is empty, or the scan from that cell meets no block |
| BlockQueries.OverlayAboveRingMisses | src/storage/read.rs:865-906 | a ring that is not full and a start above the newest slot, answered with two unrelated slots |
| BlockQueries.OverlayAtNewestOfFullRing | src/storage/read.rs:865-906 | at the newest slot of a full ring the answers before and after the push agree exactly when the ring holds no block or nothing was asked for |
| PushGuards.FrontGuardIff | src/storage/rocksdb.rs:1123-1142 | the front guards accept exactly the pushes that keep slots consecutive and heights stepping by one, apart from a first block of unknown height |
| PushGuards.BackGuardIff | src/storage/rocksdb.rs:1025-1039 | the same at the back |
| PushGuards.GuardedRunsStayLinked | src/storage/rocksdb.rs:1018-1280 | over every guarded run of pushes and pops slots are consecutive and heights of stored blocks step by one |
| PushGuards.HeightsCount | src/storage/rocksdb.rs:1130-1142 | between two stored blocks the height rises exactly with the number of blocks |
| PushGuards.UnknownHeightPanics | src/storage/rocksdb.rs:1130-1142 | a block of unknown height above skipped slots is accepted, and every push above it panics |
| WriteLoop.ReadersAccept | src/storage/read.rs:164-181 | no reader ever refuses a message of the writer, at any prefix of the log |
| WriteLoop.ConfirmationsRise | src/storage/write.rs:480-498 | announced confirmations rise strictly |
| WriteLoop.Loop.constructor | src/storage/write.rs:253-269 | the loop starts in order whatever slot the node reports, with nothing requested, queued or announced; the slots read from disk, before the pops at startup, count as stored |
| WriteLoop.Loop.OnHttp | src/storage/write.rs:284-297 | a finished request's result waits for the front, or for the back, or is too late, and exactly the queued run from the next slot on is pushed, each slot with what was queued for it; nothing is forgotten and the awaited slot is in flight |
| WriteLoop.Loop.OnStart | src/storage/write.rs:303-309 | after a `Start` the loop resumes right behind the ring with a fresh resolver |
| WriteLoop.Loop.OnStream | src/storage/write.rs:427-498 | the resolver is drained to the end; every block it found from the next slot on is queued for its slot, every dead slot as skipped, every missed slot requested, and nothing else changes; the run pushed carries what was queued; each slot up to the last one reported is queued or in flight |
| WriteLoop.Loop.PushQueued | src/storage/write.rs:480-498 | exactly the queued run leaves the queue, each slot announced and then pushed with the block that was queued for it, and every other queued result stays as it is |
| WriteLoop.Loop.CatchUp | src/storage/write.rs:310-426 | ends right behind the ring within two slots of the node's, with nothing forgotten, never waits with nothing in flight, fails exactly if the node is behind the ring; it drops exactly the backfill slots requested before it whose requests end in it |
| WriteLoop.Loop.CatchUpTurn | src/storage/write.rs:355-420 | one turn requests up to the node's slot, queues the result of the request that ends unless its slot is pushed already, and pushes the queued run with what was queued |
| WriteLoop.CatchUpLosesABackfillSlot | src/storage/write.rs:381-390 | a run through a start, two turns of backfilling and a catch-up in which a slot being backfilled is dropped |
| WriteLoop.Loop.Backfill | src/storage/write.rs:503-566 | the queued slot is stored exactly if it adjoins the ring and there is room, and otherwise backfilling ends; dropped slots are never passed, and stored ones are new if no slot below the ring had been stored when backfilling began, slots popped at startup included |
| WriteLoop.Loop.Fetch | src/storage/write.rs:623-629 | a new request is made only for a slot not in progress, so the list of requests never names a slot twice and names exactly the slots in progress |
| WriteLoop.Loop.Complete | src/storage/write.rs:663-672 | when a request ends its slot may be requested again, and the two still match |
| ValidatedRead.StepKeeps | src/storage/rocksdb.rs:1116-1280 | every writer and reader step, byte by byte, keeps the invariant of files, ring, log, published slot and request |
| ValidatedRead.AcceptedIsExact | src/rpc/api_jsonrpc.rs:578-581 | whatever was read before a successful re-check is the slot's own bytes, unless the slot was stored again since the look-up |
| ValidatedRead.ValidatedReadIsExact | src/rpc/api_jsonrpc.rs:538-581 | for every interleaving a read that passes the re-check returns exactly the block stored for the slot, unless the slot was evicted and stored again since the look-up |
| ValidatedRead.AcceptedIffAboveOldest | src/rpc/api_jsonrpc.rs:578-581 | and no read is rejected without need: it is accepted exactly if its slot lies above the oldest of the ring, in every interleaving in which pushes into an empty ring publish |
| StaleRead.StaleReadIsServed | src/rpc/api_jsonrpc.rs:538-581 | a run in which it was, its slot popped from the back as at startup and backfilled, and another slot's byte is served |
| ValidatedRead.ReplicaRecorded | src/storage/read.rs:170-181 | a replica at any position of the log shows, for every slot not stored again later, the record now in force |
| ValidatedRead.FreshIsInv | src/storage/files.rs:138-166 | empty files and an empty ring satisfy the invariant |
| Reopen.BoundsAreEnds | src/storage/blocks.rs:124-132 | a file's lowest and highest stored block are its first and last live chunk |
| Reopen.PendingIsRestorable | src/storage/rocksdb.rs:1240-1280 | at every point the ring, with or without the evicted block whose record is still there, is laid out and intact in the files |
| Reopen.FinishedIsRestorable | src/storage/rocksdb.rs:1196-1221 | so is the ring with a block whose bytes and record are written but which has not entered it |
| Reopen.ReopenedIsInv | src/storage/files.rs:93-108 | the store rebuilt from the records satisfies the invariant again, whatever write or eviction was under way and whichever of the block's record or ring entry was missing |
| Varint.RoundTrip | src/storage/rocksdb.rs:254-306 | decoding a varint gives the number and the bytes behind it |
| Varint.EncodedLen | src/source/block.rs:203-247 | the declared varint length is the number of bytes written |
| Codec.TransactionRoundTrip | src/storage/rocksdb.rs:253-306 | the index value decodes to itself if and only if its error is not the empty string, although no flag marks the error |
| Codec.OlderLayoutsDecode | src/storage/rocksdb.rs:266-306 | both older layouts decode with index 0 |
| Codec.SlotRoundTrip | src/storage/rocksdb.rs:88-159 | slot records decode to themselves, negative block times and dead slots included |
| Codec.SlotRecordIsProper | src/storage/rocksdb.rs:125-159 | unknown flags and storage ids beyond a byte are refused, and the flags say what follows |
| Codec.ExtraRoundTrip | src/storage/rocksdb.rs:187-227 | a slot's list of written keys decodes to itself and uses up the record |
| Codec.StatusRoundTrip | src/storage/rocksdb.rs:344-430 | one row record decodes to itself and leaves the rest |
| Codec.DecodeRow | src/storage/rocksdb.rs:376-430 | the decode loop equals the recursive decoder on every input, malformed rows included |
| Codec.RowRoundTrip | src/storage/rocksdb.rs:343-430 | repeated decoding of an address row returns the encoded list |
| Codec.OlderStatusDecodes | src/storage/rocksdb.rs:376-430 | row records written before indexes were stored decode with index 0 |
| Codec.StatusIsProper | src/storage/rocksdb.rs:376-430 | a record with unknown flags or a short signature is refused, and the flags say what follows |
| Codec.RowKeyOrder | src/storage/rocksdb.rs:315-329 | keys sort by address, then by slot, and determine both |
| Codec.BigEndianOrder | src/storage/rocksdb.rs:65-68 | big-endian keys sort as their numbers |
| Wire.FieldsRoundTrip | src/source/block.rs:161-201 | a wire-format reader recovers any list of fields |
| Wire.RewardDeclaredLength | src/source/block.rs:259-306 | the declared length of a reward is what its encoding takes |
| BlockCodec.DeclaredLength | src/source/block.rs:203-246 | the block's declared length equals the bytes written |
| BlockCodec.BlockRoundTrip | src/source/block.rs:161-246 | a wire-format reader recovers the block's fields in order |
| BlockReader.BlockReadsBack | src/source/block.rs:161-201 | a reader that knows only the field numbers gets back the hashes, the parent, every transaction and reward in order, time, height and partitions |
| BlockReader.RewardRoundTrip | src/source/block.rs:259-284 | and every part of a reward, negative lamports and decimal commissions included |
| BlockCodec.EncodeWithTxOffsets | src/source/block.rs:161-201 | the encoder writes the block's fields, and each recorded offset and size slices out that transaction's protobuf |
| BlockCodec.OffsetsAreExact | src/source/block.rs:161-201 | the same of the offsets as a function of the block |
| BlockCodec.NewBlock | src/source/block.rs:79-121 | filter, encoding and grouping together: the stored bytes, offsets and rows are those of the transactions that stay |
| BlockCodec.RetainedKeeps | src/source/block.rs:92-107 | the vote filter keeps exactly the allowed transactions in order, without renumbering |
| BlockCodec.GroupByAddress | src/source/block.rs:109-121 | the grouping loop gives each address its statuses, newest transaction first |
| BlockCodec.RowHasEveryMention | src/source/block.rs:109-121 | the row of an address holds exactly what the transactions say of it |
| BlockCodec.RowsDescend | src/source/block.rs:109-121 | rows are strictly descending in transaction index |
| BlockCodec.GetTransactionBytes | src/storage/read.rs:1716-1737 | every transaction the filter lets through has an index row whose decoded offset, added to the block's, reads exactly its protobuf from the file |
| EndToEnd.ServedTransactionIsExact | src/storage/read.rs:1716-1737 | the same under every interleaving with the writer, from the block as filtered and encoded through index row, concurrent read and re-check |
| Index.IndexStore.AddIndexes | src/storage/rocksdb.rs:799-842 | the batch adds the slot's transaction, address and key-list entries and nothing else; read back, they are the block's transactions, with offset, size, error and index, its address rows and its keys |
| Index.IndexStore.SlotAdd | src/storage/rocksdb.rs:843-885 | the slot's record, read back, says where its block lies, or that it was skipped |
| Index.IndexStore.SlotRemove | src/storage/rocksdb.rs:929-962 | deletes what the slot's own record names, or nothing if the record is missing |
| Index.EncodeStatuses | src/storage/rocksdb.rs:344-374 | the append loop produces the row encoding |
| Index.RecordNamesKeys | src/storage/rocksdb.rs:799-842 | a slot's decoded record names exactly the keys it wrote |
| Index.EvictKeeps | src/storage/rocksdb.rs:929-962 | an eviction deletes exactly the evicted slot's entries, also while a newer slot is indexed ahead of the ring |
| Index.PushFrontKeeps | src/storage/rocksdb.rs:1116-1222 | a front push leaves exactly the entries of the slots then stored, besides those left behind before, however its evictions and its indexing interleave; it fails exactly when it must evict more than there is |
| Index.PushBackIff | src/storage/rocksdb.rs:1018-1114 | a back push keeps the indexes exact if and only if it stores the slot or the slot was skipped |
| Index.Conservation | src/storage/rocksdb.rs:1018-1280 | over every run of pushes and pops the indexes hold exactly the entries of the slots stored and of the back pushes that found no room |
| Index.ConservationIff | src/storage/rocksdb.rs:1018-1280 | they describe the stored slots alone if and only if no back push of a block found no room |
| Index.HoldingShows | src/storage/rocksdb.rs:799-885 | a database that holds the entries of the stored slots answers, for every one of them, with its record, its transactions, its address rows and its keys |
| Index.HoldingShowsOnly | src/storage/rocksdb.rs:799-885 | and it has no other transaction, address row or slot record |
| AddressScan.Scan | src/storage/rocksdb.rs:1606-1702 | the scan over raw keys and rows, in either direction, delivers exactly the selected entries the cursor lets through, up to capacity, and is finished exactly below it |
| AddressScan.NothingBeyond | src/storage/rocksdb.rs:1637-1652 | stopping at the first foreign or out-of-range row loses nothing |
| AddressScan.ReadRow | src/storage/rocksdb.rs:1636-1664 | a stored pair decodes to its address, slot and entries |
| Paging.SkipIsRestIff | src/storage/rocksdb.rs:1666-1678 | the scan resumes where the cursor points if and only if its entry is in its row or no entry of another slot is on the skipped side |
| Paging.SkipLosesAnEntry | src/storage/rocksdb.rs:1666-1678 | two entries behind a cursor whose own entry is gone, of which the scan delivers one |
| InProcess.FirstRequest | src/storage/read.rs:1352-1416 | a request without a cursor delivers the in-process block's entries and then what the table holds below them, up to capacity, and is finished exactly below it |
| InProcess.FirstListingIff | src/storage/read.rs:1352-1396 | that is what it delivers once the block is stored if and only if the block does not lie below the requested range with an entry for the address |
| InProcess.ResumeInProcessIff | src/storage/read.rs:1354-1355 | before the block is stored, resuming behind one of its entries delivers what it will deliver afterwards if and only if the entry is the last of its block and no older entry is on the skipped side |
| InProcess.SecondPageIsEmpty | src/storage/read.rs:1352-1396 | a first page of one entry whose token leads to an empty last page, although two entries are left |
| Paging.Resume | src/storage/read.rs:1328-1350 | resuming at a listed entry delivers exactly what follows it in the range |
| Paging.TakeWanted | src/rpc/api_jsonrpc.rs:2724-2790 | a batch contributes its wanted entries in order until the page is full, and the cursors follow |
| Paging.Complete | src/storage/read.rs:1492-1532 | entries of slots no longer in the ring are dropped and the scan then counts as unfinished |
| Paging.Page | src/rpc/api_jsonrpc.rs:2664-2825 | the page loop ends, and returns the next `limit` wanted entries after the token with a token unless nothing can follow, for any limit, batch size, filter and direction |
| Paging.FollowIsComplete | src/rpc/api_jsonrpc.rs:2664-2825 | following tokens to the end yields every wanted entry exactly once and in order, in pages within the limit |
| PageContents.ListingIff | src/storage/read.rs:1328-1350 | a request ranges over exactly the address's stored entries within its slot bounds, at or below the commitment slot and, oldest first, from the first available slot on |
| PageContents.WantedUnlessRejected | src/rpc/api_jsonrpc.rs:2724-2766 | an entry is kept exactly unless its slot is gone, or its token-owner flags, its status, its block time or its position is outside what the request gives |
| PageContents.PageIsRight | src/rpc/api_jsonrpc.rs:2664-2825 | a page holds, in order and within the limit, only entries after its token that nothing speaks against; any other entry after the token is left out for such a reason or lies behind the last one of a full page |
| PageContents.TokenIsRight | src/rpc/api_jsonrpc.rs:2821-2825 | the token names the page's last entry, and without one nothing wanted is left |
| PagingBounds.SlotFilterIff | src/rpc/api_jsonrpc.rs:2264-2293 | the bounds of a slot filter mean what the filter says if and only if it is not one of three misread kinds |
| PagingBounds.PositionBoundsLoseNothing | src/rpc/api_jsonrpc.rs:2352-2376 | narrowing the range by resolved signature positions loses no wanted entry |
| PagingBounds.NarrowedByPosition | src/rpc/api_jsonrpc.rs:2352-2376 | and narrows it to exactly the slots of the given bounds |
| PagingBounds.TimeBoundsLoseNothing | src/storage/read.rs:1309-1326 | with block times that never fall, narrowing by the time index loses no wanted entry |
| PagingBounds.NarrowedByTime | src/storage/read.rs:1309-1326 | and narrows it to exactly the slots the time index gives |
| PagingBounds.BoundsAreTight | src/rpc/api_jsonrpc.rs:2273-2291 | the two bounds of a filter are its `eq`, or say exactly what its lower and its upper options say together, saturation at the largest and smallest number aside |
| Publication.SharedSlots.Set | src/storage/slots.rs:150-167 | one report in a table, removed when complete |
| Publication.SharedSlots.SetProcessed | src/storage/slots.rs:169-173 | a completed processed slot raises the published one |
| Publication.SharedSlots.SetConfirmed | src/storage/slots.rs:175-180 | a completed confirmed slot is stored as it is |
| Publication.SharedSlots.SetFinalized | src/storage/slots.rs:182-202 | a completed finalization is published if the store reaches it, and prunes all tables |
| Publication.SharedSlots.PruneUpTo | src/storage/slots.rs:186-200 | the loop removes exactly the entries up to the slot |
| Publication.StepKeeps | src/storage/slots.rs:150-202 | every atomic step of every reader keeps the tables honest and the stores backed by all readers |
| Publication.PublishedByAll | src/storage/slots.rs:175-180 | in every schedule the published confirmed slot is the one stored at startup or every reader has reported it, and the processed slot is behind only while the one from startup is shown |
| ProcessedSlots.ProcessedByAll | src/storage/slots.rs:169-180 | in every schedule the published processed slot is 0 or has been reported by every reader, as processed or as confirmed |
| Publication.NeverDecreases | src/storage/slots.rs:175-180 | with no confirmation below the startup slot, the published confirmed slot never decreases in any schedule, pruning included |
| Publication.NeverFallsIff | src/storage/write.rs:99-101 | the published confirmed slot never decreases in any schedule if and only if no confirmation lies below the slot published at startup, for any log and any number of readers |
| Publication.NeverLostIff | src/storage/slots.rs:182-202 | a confirmed slot above the one from startup is certain to be published if and only if there is one reader or no finalization of it or a later slot precedes it, in any log |
| Publication.Loses | src/storage/slots.rs:182-202 | otherwise a schedule that loses it, for any number of readers above one and any log |
| Assembly.StreamSource.Receive | src/source/stream.rs:268-492 | each message changes the source and is answered as the specification says |
| Assembly.StreamSource.Prune | src/source/stream.rs:313-333 | a finalized slot drops exactly the entries below it |
| Assembly.SortSorts | src/source/stream.rs:160-161 | sorting distinct indexes gives their ascending arrangement |
| Assembly.AssembledOnce | src/source/stream.rs:132-179 | whatever the interleaving, exactly one block per slot, transactions in index order, and none before its last message |
| Assembly.OrderIrrelevant | src/source/stream.rs:132-179 | two streams that deliver the same messages for a slot in different orders build the same block |
| Assembly.NeverBoth | src/source/stream.rs:340-408 | no slot is reported both dead and confirmed, even when its entry is pruned and comes back |
| StreamStatuses.StatusAnswer | src/source/stream.rs:300-409 | over every run what a dead or confirmed message is answered with follows from the messages before it: ignored before the first bank and up to its slot, refused before the slot's own bank, passed on once, and afterwards only a repeated confirmation is let through |
| StreamStatuses.BankAnswer | src/source/stream.rs:300-364 | a bank above the first one must name a parent, and only once |
| StreamStatuses.FinalizedAnswer | src/source/stream.rs:307-338 | a finalization above the first bank is passed on with its parent and forgets exactly the slots below |
| StreamStatuses.BlockIff | src/source/stream.rs:132-179 | a block is built exactly by the message that makes the metadata's count come true, for slots above the first one only |
| StreamStatuses.OtherFailsIff | src/source/stream.rs:410-492 | other messages fail the stream exactly if they make no sense or complete a block whose rewards do not decode |
| Assembly.ResolverIsSafe | src/source/stream.rs:268-408 | what the stream delivers never trips an assertion of the fork resolver |
| Recent.StorageProcessed.AddProcessedBlock | src/storage/read.rs:307-313 | remembers a block unless its slot is known; lookups stay exact |
| Recent.StorageProcessed.MarkDead | src/storage/read.rs:315-322 | forgets the block of an unconfirmed slot with everything indexed for it |
| Recent.StorageProcessed.SetConfirmed | src/storage/read.rs:324-360 | moves the confirmed slot and height, drops older unconfirmed blocks, moves the window, and raises the processed slot and height with the newest block that is left, or with the confirmed one |
| Recent.StorageProcessed.FindNewestAlive | src/storage/read.rs:290-297 | the highest processed slot that is not dead |
| Recent.StorageProcessed.GetSignatureStatus | src/storage/read.rs:381-406 | found exactly when a recent block holds the signature, with that block's slot, error and number of confirmations; its level is right exactly for blocks at or below the confirmed or the finalized height |
| Recent.LevelIsRightIff | src/storage/read.rs:381-406 | a block above both is reported as finalized, every other level is right |
| Recent.AddIndexed | src/storage/read.rs:253-281 | adding a block keeps signatures and hashes exactly the index of the recent blocks |
| Recent.RemoveIndexed | src/storage/read.rs:283-288 | removing a block does too |
| Recent.WindowIsExact | src/storage/read.rs:343-359 | with heights that rise with slots, exactly the blocks less than 300 heights below the confirmed one, or above it, are kept |

## Left out

- Files.StorageFile.WriteFront: when a write runs over the end of the file, the bytes beyond the old end are not modelled.
- Files.AllocatorSafety: covers runs in which no write fills the gap to the byte; `Files.SafeIffEndsApart` says what happens otherwise.
- Blocks.StoredBlocksRead.GetBlocks: a requested end lies at or above the start, as the getBlocks request parser makes sure (src/rpc/api_jsonrpc.rs:860-862).
- ValidatedRead.ValidatedReadIsExact: front pops happen only at startup and are not steps.
- Reopen.ReopenedIsInv: reading the records back from RocksDB is `Codec.SlotRoundTrip` and not repeated here.
- ValidatedRead.StepKeeps: whether a front push republishes `first_available` is left open, so the result does not depend on that rule.
- WriteLoop.Loop.CatchUp: the two-second timer becomes an optional refresh at every turn; nothing is promised after an error or an early end except that no front slot is forgotten.
- WriteLoop.Loop.OnStream: the notices of processed, dead and finalized slots, sent to the readers as the stream's messages arrive, are not in the log.
- WriteLoop.Loop.PushFront: evictions raise the ring's back by any amount; which ones is the subject of the ring, file and index modules.
- Paging.Page: the index and the commitment slot stay fixed during a page, the token comes from an earlier page, and no block is in process; `InProcess` covers the requests of a page that starts in one.
- InProcess.FirstRequest: an in-process block has a block time; the entries of one without are dropped like those of slots not in the ring (src/storage/read.rs:1492-1532).
- PagingBounds.TimeBoundsLoseNothing: block times that fall are excluded; the original calls its bound approximate there.
- Index.Conservation: failed requests to RocksDB end the writer and are not steps; a slot left behind is not pushed again.
- Publication.NeverLostIff: the published finalized slot is covered by `Publication.SharedSlots.SetFinalized` only, since it depends on `first_available`.
- Recent.StorageProcessed.SetConfirmed: `is_ready` is not stated.
- getSignaturesForAddress with `before` and `until`: a simpler scan over the same index.
- Inflation rewards, fee percentiles, compute budgets, transaction metadata: codecs and folds without interaction.
- HTTP and JSON-RPC plumbing, upstream clients, request parsing, retries, deadlines, semaphores, thread affinity, metrics and logging.
- io_uring, RocksDB, the broadcast channel and Solana's hashers: taken as array, ordered map, log and injective keys.
