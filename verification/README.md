# Repository storage engine and event stream: verification model

This project models the Go user service's repository storage engine and its event stream, and
proves what they keep. `dafny verify dfyconfig.toml` checks everything.

What is modelled, from the bottom up:

- **Codecs and ids.** `Cids`, `Cbor`, `Records`, `CommitCodec` and `PlcCodec` hold the byte-level
  encoders and decoders of identifiers, commits and PLC operations (RFC 8949, sections 3 and 3.1);
  `Items` is CBOR as a tree of data items, against which the link scan is proved; `SortedKeys` the
  key order of encoded maps; `Tid` the base-32 revision ids.
- **Block graphs.** `Graph` defines links and reachability; `Traversals` the recursive walk of an
  import and the recursive copy; `CommitLinks` the data items of commits and of
  file headers, and the way from a commit to its tree; `BlockDiff` the diff of two trees.
- **CAR shard store.** `CarFile` is the shard file format. `Disk` is the persistent state (a map
  from path to bytes, and the two tables) with the atomic writes the store makes; a process may
  stop between any two. `Writes`, `Compaction`, `Buckets` and `CompactRun` are the write sequences
  and what they keep at every point; `Heads` the newest-shard queries and the cache that must
  agree with them; `CarStore` the store object; `Sessions` the block views and sessions; `ReadCar`
  the export of a repository.
- **Repo manager.** `Repos` is one repository over a session; `Batches` record paths and what a
  list of writes leaves at each of them; `Managers` the manager, proved to act on one map from path
  to record per actor; `Witness` an instance of all they assume; `Revisions` why an actor's
  revisions increase with its shards; `ActorLock` the reference-counted lock under which the
  operations of one actor run.
- **Events.** `EventLog` is the sequenced log with its broadcaster, `Subscribe` the hand-over from
  replaying the log to following it live.

Reading guide. `Durable` says that every shard row names an existing, well-formed file whose
blocks are exactly its ref rows. A step sequence is safe (`SafeSteps`) when that holds after each
step and no file named by a row is overwritten. `CarStore.Valid` adds that each cached shard of a
non-zero actor is its highest row. Every operation keeps it wherever it stops, but for a wipe that
stops midway, and for deletions of an actor that has two shards with one sequence number.
`Refines` says that the store holds exactly the given map of records per actor. Requests to the
database and the object store may fail at any point if the environment is `faulty`; a ghost
`fault` result records that one did, or that the signer refused, and the contracts say what holds
with and without it.

Nothing assumes that identifiers never collide. `known` is the content each identifier has been
used for so far; a write returns, as `puts`, every block it has put, and promises that the store
refines the new records provided these blocks are `Accepted`: none of them names a second content
for an identifier, the reader accepts their sizes, and the new tree reads back as its map. What is
asked of the tree library, the hash and the signer (`Lawful`) is met by the small library of
`Witness`, over which a manager is built and run.

Where the code does not do what its names or comments suggest, the model follows the code:

- The loop counter of `offsetBytes` is shadowed, so over a body that cannot seek a prefetching read
  of a shard file above 512 KiB never succeeds (`OffsetBytes`, `ActorView.Get`); the manager's
  completeness clauses therefore ask for `Unstuck`.
- A shard file that cannot be read during compaction is skipped and then deleted
  (`CompactViewIff` says exactly when nothing is lost).
- A compaction that stops between inserting the merged row and deleting the bucket's last row
  leaves two rows with one sequence number, and a later deletion of one of them can remove the
  other's file (`TwinsIff`, `StoppedCompactionLosesFile`). What compaction and wipes promise at
  intermediate points is therefore stated for actors whose sequence numbers are unique.
- The zero shard of any actor without shards is cached under actor 0, so nothing is claimed about
  the cache entry of actor 0 in general.
- Label events are stored with a sequence number but report none, and a cursor two past the end
  swallows an event (`KindsExact`, `CursorExact`).
- An event broadcast between the first replay of a subscription and its registration is withheld
  until another one is broadcast (`IdleDelivered`, `EventWithheld`).
- `BlockDiff` keeps only what new blocks link to directly, so it can drop a block still in use
  (`DropIsSafeIff`, `SharedRecordDropped`).
- The string order of ids breaks at every power of 32, for microseconds at 2^55 (`OrderedIff`).
- `InitNewRepo` does not look whether a repository exists: it replaces the records.

## Model

| member | source | states |
|---|---|---|
| EventLog.EventManager.BroadcastEvent | user_service/internal/events/events.go:68-130 | Every registered subscriber is offered the event exactly once. One whose filter passes is sent it when it has fewer than its buffer's size of unread events, and is cut off exactly when it has not; an event that cannot be serialized reaches nobody. |
| EventLog.EventManager.RmSubscriber | user_service/internal/events/events.go:552-563 | The swap-with-last removal takes out exactly the given subscriber and keeps all others, each once. |
| EventLog.MemPersister.Persist | user_service/internal/events/persist.go:39-66 | The event gets its 1-based position in the log as sequence number, is appended, and reaches every live subscriber with room for it before the next event can. |
| EventLog.LiveSubscriberGetsContiguousRun | user_service/internal/events/events.go:84-129 | Over every sequence of broadcasts, reads and eviction steps, a live subscriber has received a contiguous run of the events passing its filter from its registration on; after an overflow nothing follows but at most one ConsumerTooSlow frame. |
| EventLog.EvictedOnlyWhenFull | user_service/internal/events/events.go:84-129 | Over every run: a subscriber still accepts, and was sent every passing event, if and only if none of them found a full buffer of unread ones; the event that cuts it off finds exactly that many, and its channel never holds more. |
| Subscribe.StepKeepsInv | user_service/internal/events/events.go:425-489 | Each atomic step of the cursor subscription, of a persist, of a broadcast, of the eviction goroutine or of the consumer keeps the hand-over invariant. |
| Subscribe.CursorDeliversLog | user_service/internal/events/events.go:425-489 | In every interleaving the cursor stream is since+1, since+2, ... without gap or duplicate across replay, second replay and live phase, for streamable events over any starting log whose replayed part does not end in a label. |
| Subscribe.IdleDelivered | user_service/internal/events/events.go:425-489 | In every reachable state in which only a further persist can happen, everything logged has been delivered if and only if the subscription is live, or it waits for its first live event and nothing was broadcast between the end of its first replay and its registration. |
| Subscribe.EventWithheld | user_service/internal/events/events.go:451-454 | An event broadcast in that gap is withheld: from the end of any log, four steps lead to a registered, accepting subscription with an empty output, one event logged for it, and nothing left to happen but a further persist. |
| Subscribe.CursorExact | user_service/internal/events/persist.go:68-85 | That holds for streamable events if and only if the cursor is at most one past the end of the log. |
| Subscribe.CursorTooFar | user_service/internal/events/persist.go:73-75 | For every cursor further out there is a run that loses the first new event and delivers the second. |
| Subscribe.KindsExact | user_service/internal/events/events.go:498-523 | From any log and cursor the stream is contiguous in every run if and only if nothing but labels is persisted from then on, or no labels are, the cursor is at most one past the end, and the replayed part does not end in a label. |
| Subscribe.LabelDuplicated | user_service/internal/events/events.go:433-437 | Whenever the replayed part of the log ends in a label there is a run whose second replay delivers a label again. |
| Subscribe.LabelSkipped | user_service/internal/events/events.go:68-84 | Whenever labels and other events are persisted there is a run in which a live subscription is sent the event after a label but not the label. |
| ActorLock.LockTable.Enter | user_service/internal/repo/manager.go:107-117 | The first critical section of lockActor: look up or create the lock, count one more user. |
| ActorLock.LockTable.Leave | user_service/internal/repo/manager.go:122-130 | The unlock closure: count one less, forget an unused lock. |
| ActorLock.StepKeepsInv | user_service/internal/repo/manager.go:103-132 | Every step of every goroutine keeps: the map mutex has one holder, a lock mutex belongs to who runs under it, the count equals holders plus waiters, and a lock is in the map exactly while it is counted. |
| ActorLock.MutualExclusion | user_service/internal/repo/manager.go:103-132 | In every run of any number of goroutines, at most one is in the critical section of an actor. |
| ActorLock.LiveLocks | user_service/internal/repo/manager.go:98-132 | In every run, an actor has a lock in the map exactly while somebody uses it, it is one object for all of them, and its count is their number. |
| ActorLock.WaitersHoldNothing | user_service/internal/repo/manager.go:117-119 | Nobody waits for an actor lock while holding the map mutex. |
| ActorLock.NoDeadlock | user_service/internal/repo/manager.go:103-132 | Whenever some goroutine is inside the protocol, some goroutine can step. |
| Tid.S32Encode | user_service/internal/repo/tid.go:13-21 | The encoding loop computes the base-32 numeral, in digits 2 to 7 and letters a to z only. |
| Tid.S32Injective | user_service/internal/repo/tid.go:13-21 | Different numbers have different numerals. |
| Tid.S32Order | user_service/internal/repo/tid.go:11-21 | On numerals of one length, string order is numeric order. |
| Tid.S32Alphabet | user_service/internal/repo/tid.go:11-21 | Every byte of a numeral is one of the digits 2 to 7 or the letters a to z; with the order this fixes all 32 digits. |
| Tid.TidSource.NextTID | user_service/internal/repo/tid.go:38-51 | The id of the new time, in alphabet characters only; the time is above the last one handed out and not behind the clock, unless the 64-bit counter wraps around. |
| Tid.TidsDistinct | user_service/internal/repo/tid.go:38-51 | Whatever the clocks read and whatever order the lock is taken in, no id is handed out twice. |
| Tid.TidsOrdered | user_service/internal/repo/tid.go:38-51 | Ids increase in the order the lock is taken as long as the times have the same number of base-32 digits. |
| Tid.TidLess | user_service/internal/repo/tid.go:38-51 | Between 2^50 and 2^55 microseconds a later time has a greater id. |
| Revisions.CommitRevs | user_service/internal/repo/repo.go:285-290 | A commit whose revision is the id just handed out keeps every actor's revisions increasing with its sequence numbers. |
| Revisions.CompactionKeepsRevs | user_service/internal/car/store.go:881-888 | Compaction keeps that order, because a merged row has both its number and its revision from a row it replaced. |
| Tid.OrderLostAcrossDigits | user_service/internal/repo/tid.go:13-21 | At every power of 32 the next id sorts before the last one, whatever the clock id. |
| Tid.OrderedIff | user_service/internal/repo/tid.go:13-21 | The ids of all times in a range are in string order if and only if its ends have numerals of one length; for microseconds the order breaks at 2^55. |
| Cids.UvarintRoundTrip | user_service/internal/car/utils.go:22-24 | Every length below 2^64 survives as a varint, whatever follows it. |
| Cids.UvarintMeans | user_service/internal/car/utils.go:22-24 | The varint is the number in groups of seven bits, least first, none wasted, the high bit set on all but the last. |
| Cids.CidRoundTrip | user_service/internal/car/store.go:946 | The binary form of an identifier is read back, whatever follows it. |
| Cbor.HeaderRoundTrip | user_service/internal/repo/cbor_gen.go:21-60 | A data item header is read back for every major type and 64-bit argument (RFC 8949, section 3). |
| Cbor.HeaderCanonical | user_service/internal/repo/cbor_gen.go:174-200 | Only the shortest header is accepted: what is read is what would be written. |
| Cbor.ArgBytesLeast | user_service/internal/repo/cbor_gen.go:53-60 | No shorter header could hold the argument. |
| Cbor.BigEndianOrder | user_service/internal/repo/cbor_gen.go:53-60 | The bytes of an argument are in order as the numbers are: the most significant first. |
| Records.IntRoundTrip | user_service/internal/repo/cbor_gen.go:161-169 | Every int64 survives, the least one through the wrap-around of its negation. |
| Records.ServiceRoundTrip | user_service/internal/plc/cbor_gen.go:545-677 | Service encoder and decoder undo each other. |
| Records.RecordRoundTrip | user_service/internal/repo/cbor_gen.go:174-331 | A map of known fields that fit is read back field by field, in the order written. |
| CommitCodec.SignedRoundTrip | user_service/internal/repo/cbor_gen.go:21-331 | Signed commits survive for every value within the limits: empty rev omitted, null prev, every version. |
| CommitCodec.UnsignedRoundTrip | user_service/internal/repo/cbor_gen.go:333-597 | Unsigned commits survive likewise. |
| CommitCodec.SignedBytesRederived | user_service/internal/repo/repo.go:285-315 | The bytes CheckRepoSig re-derives from a stored commit are the bytes its maker gave the signer, and no other unsigned commit has those bytes. |
| CommitCodec.MarshalSigned | user_service/internal/repo/cbor_gen.go:21-172 | The writer produces the encoding field by field, and errs exactly on values outside the limits. |
| CommitCodec.MarshalUnsigned | user_service/internal/repo/cbor_gen.go:333-460 | The same for what BytesForSigning runs. |
| CommitCodec.UnmarshalSigned | user_service/internal/repo/cbor_gen.go:174-331 | The reader loop, field by field, decodes what the whole-record reader decodes, and fails exactly when it does. |
| CommitCodec.SignedAnyOrder | user_service/internal/repo/cbor_gen.go:174-331 | The fields of a commit decode to it in any order, even repeated, with any well-formed fields of unknown names among them. |
| CommitCodec.FieldsCanonical | user_service/internal/repo/cbor_gen.go:43-172 | The fields of a commit are written shorter names first, and names of one length in byte order. |
| PlcCodec.OpRoundTrip | user_service/internal/plc/cbor_gen.go:21-544 | PLC operations survive: optional prev, omitted empty sig, nested maps and arrays. |
| PlcCodec.TombstoneRoundTrip | user_service/internal/plc/cbor_gen.go:679-854 | Tombstone operations survive. |
| PlcCodec.MarshalMap | user_service/internal/plc/cbor_gen.go:128-160 | The map writer depends only on the map: its entries come out in sorted key order whatever order they are collected in. |
| PlcCodec.OpCanonical | user_service/internal/plc/cbor_gen.go:21-270 | So are the fields of an operation and of a tombstone. |
| SortedKeys.SortedUnique | user_service/internal/plc/cbor_gen.go:137-141 | There is one strictly sorted list of a set of keys. |
| SortedKeys.SortKeys | user_service/internal/plc/cbor_gen.go:137-141 | Collecting the keys in any order and sorting them gives that list. |
| Prelude.LexMeans | user_service/internal/plc/cbor_gen.go:137-141 | The order of strings: the first difference decides, and without one the shorter comes first. |
| Items.ScanItem | user_service/internal/repo/manager.go:1042-1055 | Scanning any data item, whatever follows it, finds its links in the order they are written, in arrays, in the keys and values of maps and under tags, and goes on right behind it, or fails if one is too long to read. |
| Items.LinksFound | user_service/internal/car/store.go:315-323 | So the links found in a block are exactly those of its data item, in order. |
| CommitLinks.CommitScan | user_service/internal/repo/repo.go:475-480 | The links found in a commit block are its tree and the commit before it, if there is one, in that order, unless one of them is too long to read. |
| CommitLinks.TreeReached | user_service/internal/repo/manager.go:1024-1073 | Hence the walk of an import gets from a stored commit to its tree. |
| CommitLinks.UnknownItem | user_service/internal/repo/cbor_gen.go:321-329 | Any data item with readable links may stand in a commit under a name that is not a field's. |
| CommitLinks.HeaderItem | user_service/internal/car/utils.go:40-56 | The header of a shard file is the map of one list with the one root, and version 1. |
| Traversals.TreeWalker.WalkTree | user_service/internal/repo/manager.go:1024-1073 | The recursive walk with its shared skip set: what it returns, what it marks, and that any other error than not-found names a reachable bad block. |
| Traversals.WalkedExactly | user_service/internal/repo/manager.go:1024-1073 | From an empty skip set the result is exactly the stored identifiers reachable along links that are not raw, and is free of duplicates if and only if the root does not link to itself. |
| Traversals.ProcessNewRepo | user_service/internal/repo/manager.go:976-1002 | An import succeeds if and only if some set of readable blocks holds the root and whatever its blocks link to, raw links and missing dag-cbor blocks aside; it copies exactly the least such set, the blocks reachable from the root. |
| Traversals.Copier.CopyRec | user_service/internal/repo/repo.go:460-489 | Each identifier reached is copied once; failure names a reachable block that is missing or malformed. |
| Traversals.CopyDataTo | user_service/internal/repo/repo.go:456-489 | Succeeds if and only if some set of readable blocks holds the root and all its blocks link to; the destination gains exactly the least such set, the reachable blocks, each put once. |
| BlockDiff.Diff | user_service/internal/car/store.go:295-358 | Drops exactly the least set that holds the old root and every dag-cbor block not kept that one of its blocks links to: what the old tree reaches without passing the keep set. Errors exactly when a new block or one of these is missing or the root is kept; its unmarked worklist ends because a path count over it shrinks. |
| BlockDiff.CycleNeverEnds | user_service/internal/car/store.go:334-355 | On a cycle it reaches, the worklist never empties, so the acyclicity the termination needs is necessary. |
| BlockDiff.DropIsSafeIff | user_service/internal/car/store.go:309-351 | Nothing a new block still reaches is dropped, if and only if no old block that a new one reaches, and that stays, links to a dropped one. |
| BlockDiff.DropIsSafe | user_service/internal/car/store.go:309-351 | In particular nothing in use is dropped when, among the blocks of the old tree and those in use, no dropped old block has two old parents and the old root has none. |
| BlockDiff.SharedRecordDropped | user_service/internal/car/store.go:309-351 | Two records with identical bytes share a block, and then a block a new block still reaches is dropped. |
| CarFile.LdWrite | user_service/internal/car/utils.go:16-38 | One section: the varint of the total length, then the slices. |
| CarFile.BuildShard | user_service/internal/car/store.go:933-958 | The header, then every block of the map once, each with the offset of its own section. |
| CarFile.FramesRead | user_service/internal/car/utils.go:16-38 | Reading sections back gives the blocks up to the first that does not fit, cleanly if and only if all do. |
| CarFile.ReadAtOffset | user_service/internal/car/user_view.go:109-121 | The recorded offset of a block is where reading gives that block. |
| CarFile.HeaderRoundTripFile | user_service/internal/car/utils.go:40-56 | The header section is read back as its one root. |
| CarFile.ShardRoundTrip | user_service/internal/car/store.go:933-958 | The file of a block list parses to its root and, from its data start, to exactly those blocks. |
| Disk.DeleteFilesKeepsIff | user_service/internal/car/s3.go:60-73 | Deleting files by actor and sequence number keeps tables and files in agreement if and only if no remaining row names one of them. |
| Disk.InsertRowsKeeps | user_service/internal/car/meta.go:181-220 | Rows for a stored shard file keep the agreement of tables and files. |
| Disk.ReadRefWorks | user_service/internal/car/user_view.go:202-217 | Any ref row of a well-formed store reads back the block it names. |
| Disk.ServesIff | user_service/internal/car/meta.go:49-61 | Unless two stored blocks clash, an identifier is served, by whichever of its ref rows, exactly with the block stored for it. |
| Writes.SafePoint | user_service/internal/car/store.go:924-983 | In a safe write sequence tables and files agree wherever it stops, and no file that a row names is overwritten. |
| Writes.WriteSafeIff | user_service/internal/car/store.go:960-979 | Writing a shard is safe at every point if and only if no row names its path yet and every block can be read back. |
| Writes.WriteEffect | user_service/internal/car/meta.go:181-220 | One new row and one new ref per block; the blocks become stored for the one actor only. |
| Writes.DeleteSafe | user_service/internal/car/store.go:458-496 | Deleting listed shards chunk by chunk is safe at every point when no other row shares one of their keys. |
| Writes.ChunkSafeIff | user_service/internal/car/store.go:462-481 | One chunk is safe if and only if no row outside it names a file it deletes. |
| Writes.DeleteEffect | user_service/internal/car/store.go:483-493 | The whole deletion takes away exactly the listed rows, their refs and the files at their keys. |
| Compaction.MergeAllKeeps | user_service/internal/car/store.go:850-879 | The merged file holds every identifier of its inputs exactly once, each with a block of an input. |
| Compaction.CompactSafe | user_service/internal/car/store.go:886-906 | Merging and deleting a bucket is safe at every point when no other row shares a key with it. |
| Compaction.CompactViewIff | user_service/internal/car/store.go:874-878 | At every point nobody loses a stored block, if and only if each block of the bucket was read and merged or is in another shard of the actor. |
| Compaction.CompactionKeepsView | user_service/internal/car/store.go:779-807 | When every file is read, and no two stored blocks clash, after any number of steps every identifier is served with the same bytes as before. |
| Compaction.TwinsIff | user_service/internal/car/store.go:881-888 | Two rows share a sequence number exactly while the merged row and the last row of its bucket are both in the table. |
| Compaction.StoppedCompactionLosesFile | user_service/internal/car/store.go:804-806 | After a stop in that window, deleting a chunk with the merged row but not its twin removes the file the twin names. |
| Compaction.BucketSummary | user_service/internal/car/store.go:786-806 | One bucket stopped anywhere: tables and files agree, rows outside it are untouched, no block is held that was not, and with full reads nobody's stored blocks changed. |
| Buckets.AggrRefs | user_service/internal/car/store.go:537-565 | One entry per shard with refs, by ascending sequence number, counting its refs; nothing is ever dirty. |
| Buckets.CountMeans | user_service/internal/car/store.go:537-565 | A shard's total is the number of positions at which a ref of it stands. |
| Buckets.CleanMeans | user_service/internal/car/store.go:596-599 | What a bucket is measured by is the number of refs its shards have. |
| Buckets.Bucketize | user_service/internal/car/store.go:757-772 | The buckets are consecutive, non-empty, make up the input, and are cut exactly where the thresholds say. |
| Buckets.BucketsUnique | user_service/internal/car/store.go:757-772 | That leaves no choice: two such bucketings are equal. |
| Buckets.CutWhere | user_service/internal/car/store.go:735-772 | Bucket number j is cut as soon as it holds more than 20 refs and, among the first ten, more than the total halved j+1 times, or only one shard or none is left. |
| Buckets.NewestAlone | user_service/internal/car/store.go:763-768 | The last shard is alone in the last bucket. |
| Buckets.CompactedIff | user_service/internal/car/store.go:574-594 | A bucket is merged if and only if it holds more than five shards. |
| CompactRun.NewestNeverMerged | user_service/internal/car/store.go:780-808 | The actor's newest shard is in no merged bucket. |
| CompactRun.BucketNewest | user_service/internal/car/store.go:836-845 | The shard whose head and number a merged one gets is the newest of its bucket. |
| CompactRun.OneRowEach | user_service/internal/car/store.go:881-906 | A merged bucket leaves, in place of its rows, one row with the head, number and revision of its newest shard. |
| CompactRun.BucketDone | user_service/internal/car/store.go:780-807 | From bucket to bucket, stopped anywhere: the whole step sequence so far is safe, only rows of merged buckets are gone, no block is held that was not, and with full reads every actor's stored blocks are unchanged at each step. |
| CompactRun.CacheAfter | user_service/internal/car/last_shard_cache.go:46-54 | Whatever part of the buckets was merged, each cached shard is still its actor's highest row. |
| Heads.QueryShards | user_service/internal/car/meta.go:93-115 | All rows of the actor, each once, ascending by sequence number. |
| Heads.LastAfterWrite | user_service/internal/car/store.go:275-289 | With a number above all of the actor's, the new row is its highest, the updated cache is right for everybody, and sequence numbers stay unique. |
| Heads.Wiped | user_service/internal/car/store.go:443-456 | A wipe stopped anywhere leaves other actors alone and tables and files in agreement; a finished one leaves no row, ref or cached shard of the actor. |
| Heads.StoppedWipe | user_service/internal/car/store.go:449-453 | A wipe that stops leaves the cache right if and only if the last chunk was not reached. |
| CarStore.CarStore.GetLastShard | user_service/internal/car/last_shard_cache.go:56-72 | For every actor but 0, cached or not, the answer is the actor's highest row, or the zero shard if it has none. |
| CarStore.CarStore.WriteNewShard | user_service/internal/car/store.go:924-983 | File, then rows, then cache; stopped in between, the store is still valid; the returned slice is the file. |
| CarStore.CarStore.DeleteShards | user_service/internal/car/store.go:458-496 | Carries out a prefix of the deletion plan, all of it on success. |
| CarStore.CarStore.WipeActorData | user_service/internal/car/store.go:443-456 | Removes exactly the actor's rows, refs and files, and its cache entry only on success. |
| CarStore.CarStore.ReadShardBlocks | user_service/internal/car/store.go:244-273 | The blocks before the first that cannot be read. |
| CarStore.CarStore.CompactBucket | user_service/internal/car/store.go:820-908 | Merges what was read under the head of the bucket's last shard; a failed insert takes the file away again. |
| CarStore.CarStore.CompactActorShards | user_service/internal/car/store.go:668-810 | Merges exactly the buckets of more than five, of all the actor's shards or of those after its leading big ones; skipped and deleted shards add up to all considered shards with blocks, and the rows left are those not deleted and the new ones. Valid, lossless (if all files were read) and cache-coherent wherever it stops, and it stops early only if a request failed. |
| Sessions.OffsetBytes | user_service/internal/car/user_view.go:123-145 | A body that cannot seek is never left at a positive offset: the call fails or exhausts it, because the loop counter is shadowed. |
| Sessions.ActorView.Get | user_service/internal/car/user_view.go:71-107 | Without faults it fails exactly when the identifier has no ref row, or the row leads to a prefetch of a large file over a body that cannot seek; what it returns is the cached block or what reading at that row gives, and what it adds to the cache are stored blocks. |
| Sessions.ActorView.PrefetchRead | user_service/internal/car/user_view.go:149-200 | Whenever it succeeds it gives what reading at the row directly gives; a file up to the threshold is parsed whole into the cache. |
| Sessions.ActorView.SingleRead | user_service/internal/car/user_view.go:202-217 | A ranged read gives the block its ref row names. |
| Sessions.DeltaSession.Get | user_service/internal/car/delta_session.go:83-90 | The session's own block, else the view's. |
| Sessions.DeltaSession.PutMany | user_service/internal/car/delta_session.go:52-61 | All blocks are laid over the session, the last one given for an identifier winning; a read-only session changes nothing. |
| Sessions.DeltaSession.DeleteBlock | user_service/internal/car/delta_session.go:69-80 | Removes exactly the block, if the session may write and has it. |
| Sessions.DeltaSession.CloseWithRoot | user_service/internal/car/delta_session.go:117-126 | One new shard with exactly the session's blocks, at the number the session was given; refused only for a read-only session, a failed request or a block too long to write. |
| Sessions.NewDeltaSession | user_service/internal/car/store.go:126-156 | Without a fault refused exactly for a stale revision; otherwise it starts at the actor's highest row with the number after it. |
| ReadCar.SeqForRev | user_service/internal/car/meta.go:143-161 | The sequence number of a row with the least revision at or after the given one. |
| ReadCar.ReadActorCar | user_service/internal/car/store.go:175-241 | One header with the head root, then the files of all shards from the revision on, newest first; without faults it fails exactly when there is none, or one holds no block. |
| ReadCar.AllBlocksFirst | user_service/internal/car/store.go:210-214 | The blocks of the first listed shard come first in the stream, before those of the others. |
| ReadCar.ExportRoundTrip | user_service/internal/car/store.go:203-214 | The stream parses back to the head root and the shards' blocks in that order. |
| ReadCar.ExportSince | user_service/internal/car/store.go:184-196 | If revisions increase with sequence numbers, the export holds exactly the shards at or after the revision, and so exactly their blocks. |
| Repos.OpenRepo | user_service/internal/repo/repo.go:142-160 | Opens at a stored commit of version 2 or 3; a stored head that is one is opened unless a request fails or a read gets stuck. |
| Repos.LoadMst | user_service/internal/repo/repo.go:321-329 | Reading the root and every node linked from a node already read, however the session finds the blocks, gives the map whose tree is stored; without faults it fails only over a stuck prefetch. |
| Repos.Repo.CreateRecord | user_service/internal/repo/repo.go:192-214 | Adds the path and puts the record, failing without a fault exactly when the path is taken; a refused record keeps waiting in the session. |
| Repos.Repo.UpdateRecord | user_service/internal/repo/repo.go:217-239 | Replaces the record, failing without a fault exactly when the path is missing; a refused record keeps waiting in the session. |
| Repos.Repo.DeleteRecord | user_service/internal/repo/repo.go:242-259 | Removes the path, failing without a fault exactly when it is missing; no block is put or removed. |
| Repos.Repo.Commit | user_service/internal/repo/repo.go:268-319 | Puts nodes of the current tree, all those the save writes, and last a commit block that decodes to that tree under the new revision and whose signature verifies; every record is stored or in the session. |
| Repos.Repo.CheckRepoSig | user_service/internal/repo/manager.go:504-525 | Accepts exactly the expected DID with a verifying signature over the re-derived bytes. |
| Repos.SignatureExact | user_service/internal/repo/manager.go:504-525 | A commit that was signed, stored and read back is accepted if and only if its signature verifies, for its DID, over the bytes the signer was given. |
| Batches.PathSplits | user_service/internal/repo/manager.go:573 | A path splits at its first slash into the collection and key it was made of, whatever the key is. |
| Batches.PathsDiffer | user_service/internal/repo/manager.go:170 | Two records with collections free of slashes have one path only if they agree in collection and key. |
| Batches.FoldMeans | user_service/internal/repo/manager.go:668-742 | A batch goes through if and only if each create finds its path free, and each update and delete finds it taken, after the writes before it. Then a path no write is about is unchanged, and any other holds what the last write about it says, nothing after a delete. |
| Batches.OneWrite | user_service/internal/repo/manager.go:726-731 | A batch of one write has the effect of the single operation; for a delete, exactly that record is gone. |
| Managers.CommitRefines | user_service/internal/repo/manager.go:175-183 | A new shard with a commit to t makes the actor's records t and changes nobody else's; every stored block has the content known for its identifier. |
| Managers.RecordsUnique | user_service/internal/repo/manager.go:435-469 | The store determines every actor's records, whatever is known of blocks it does not hold. |
| Managers.Manager.CreateRecord | user_service/internal/repo/manager.go:140-209 | The record is added in exactly one new shard numbered one above the highest, whose revision is the id just handed out, and every record of another key or collection is what it was, or nothing persisted changes; without faults it fails exactly without a repository or when the path is taken. If no identifier then names two contents, the store holds exactly the new records and the record is read back. |
| Managers.Manager.UpdateRecord | user_service/internal/repo/manager.go:212-285 | The same for replacing a record that must be there. |
| Managers.Manager.DeleteRecord | user_service/internal/repo/manager.go:288-347 | The same for removing one. |
| Managers.Manager.InitNewRepo | user_service/internal/repo/manager.go:350-411 | The records become the one profile record, whatever they were, so no other collection and key has one; refused for actor 0 and an empty DID. |
| Managers.Manager.BatchWrite | user_service/internal/repo/manager.go:649-771 | Every write was admitted after those before it and the last write about a path wins, all in one shard, or nothing persisted changes; a batch of one write does what the single operation does; creates without a key get new ids in ascending order. Without faults it fails exactly when there is no repository or some write is not admitted. If no identifier then names two contents, the store holds exactly these records. |
| Managers.Manager.GetRecord | user_service/internal/repo/manager.go:436-469 | Returns the identifier the current records have for the collection and key, with the content it was last used for; refused exactly when there is none or another one was expected. |
| Managers.Manager.ReadRepo | user_service/internal/repo/manager.go:431-433 | The export is one header with the head root and the blocks of the listed shards; while the clock stayed in range, those since a revision are exactly the shards committed at or after it. |
| Managers.Manager.TakeDownRepo | user_service/internal/repo/manager.go:1076-1081 | Removes the actor's repository and no other. |
| Witness.Run | user_service/internal/repo/manager.go:649-771 | A manager whose assumptions all hold: over an empty store it starts a repository, takes a create and an update as one commit, is valid after each, and gives back the updated record. |
| Managers.CompactionKeepsRepos | user_service/internal/car/store.go:668-810 | Compacting an actor changes nobody's records. |

## Left out

- S3, Postgres, KMS, HTTP, websockets, metrics, tracing and logging: files are a map from path to bytes, tables are sets of rows, the signer and its check are two functions, the clock is a parameter.
- The Merkle search tree, the hash functions and go-car are contracts: a save writes every node the loaded tree does not have, and content passes the check of the identifier hashed from it. Path validation by the tree is not part of this model, and loading a tree reads all its nodes at once.
- A database transaction or request that reports an error but takes effect later, except for file requests and deletions, which may take effect and still report an error.
- Writing the temporary file of a merged shard is one step: a partly written file has no row. Write errors inside it are not modelled. The temporary files of merged shards that are themselves compacted stay behind, unreferenced, as in the source.
- Compaction reads local paths in the source while new shards carry object-store keys; one file store is modelled, and the uniqueness the schema declares for roots is not.
- DeleteObjects' limit of 1000 keys, the SQL text of the queries, and the order of rows with equal sequence numbers (any order is allowed). Revision comparison is byte order.
- HasAidCid, Has and GetSize of the views, Stat, GetCompactionTargets and PingStore.
- ImportSlice, HandleExternalActorEvent and ImportNewRepo end to end: their walks, diffs and signature check are modelled, their event payloads are not. CalcDiff's result is never used by the writer.
- Manager events, hydrated records, GetRecordProof, and decoding records into lexicon types.
- Cancelling a cursor subscription during its first replay, the `done` case of the broadcast select, the output channel left open at the end of a cursor stream, negative cursors, and filters on replay (the source does not apply them there).
- RepoSync in MemPersister, which panics; ids that read the system clock; TID padding.
- Version-0 identifiers and digests of 128 bytes or more; decoder inputs that repeat a known key with different types.
- EventLog.MemPersister.Persist: requires a kind the persister can stamp, because it panics on the others.
- CommitCodec.UnsignedRoundTrip: the reader loop of UnsignedCommit is not repeated as a method, because it is that of SignedCommit without one field.
- PlcCodec.OpRoundTrip: the writer and reader of Op are functions over field lists; only the map writer with its key sorting is also a method.
- Managers.Manager.CreateRecord: promises a valid manager after a success only if the new blocks are accepted, because a block over the reader's limit, or one whose identifier already names another content, is stored but not read back; likewise UpdateRecord, DeleteRecord, InitNewRepo and BatchWrite.
- Sessions.DeltaSession.CloseWithRoot: the panic on a block of 2^56 bytes or more is a refusal here.
- Managers.Manager.TakeDownRepo: promises a valid manager only when the wipe completes, because a stopped wipe leaves a stale cache entry (StoppedWipe).
- Managers.Manager.GetRecord: runs here without a concurrent writer, while the source reads the head outside the actor lock.
- CarStore.CarStore.GetLastShard: check, query and put are one step here; in the source another caller can come between them.
- CarStore.CarStore.CompactActorShards: promises nothing at intermediate points for an actor that already has two shards with one sequence number, because the store can lose a file then (StoppedCompactionLosesFile).
