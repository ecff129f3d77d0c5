# simpleconf: the document, its three logs, and delivery to peers

simpleconf keeps one JSON document. A write changes the document in memory and
is then carried by one of three logs, each of which must give it back after a
crash. This project models the document and the logs and proves what each of
them keeps, over every input and every run. Bytes of files and of the wire are
`char`s.

**The document** (`internal/db/tree.go`). `OrderedObject` is the
insertion-ordered object: what its operations mean on a sequence of entries,
and the class with parallel slices and an index that implements it. `JsonTree`
has set, delete and lookup over path segments; `TreePaths` the walk over an
unsplit path and its refinement of the segments; `TreeLaws` what a set or a
delete changes and leaves alone, and that a padded hole cannot be told from
`null`; `TreeIndex` which segments name an element of an array. `JsonNumbers`,
`JsonStrings` and `JsonText` are the text: rendering, and a parser that undoes it;
`JsonGrammar` and `StringGrammar` prove that the parser reads exactly the grammar of
RFC 8259. `Formats` has the texts and bytes that others rely on, in examples.

**The append-only file** (`internal/db/db.go`). `AofLog` and `AofReader` are its
records and the reader, for a file cut at any byte. `Document` ties writes to
records and holds the store with its lazily rebuilt text. `AofQueue` is the
writer goroutine as a state machine with a failing disk, under three fsync
policies; `AofSafety` what every run of it guarantees and exactly when, `AofSteps`
what ticks, the close, vacuums and the bound on the buffer are for, `AofFlaws`
runs that break a promise, `AofAhead` vacuums with writes queued behind them, and
`AofWriter` the goroutine's variables and closures, each proved to take the
machine's steps.

**The peer queue** (`internal/peers`). `PeerLog` is the text of its log and what
a restart reads; `PeerQueue` the worker as a state machine, whose group commit
is split where other callers may run; `PeerSafety` its guarantees; `PeerWorker`
the class. `Wire` and `PeerProtocol` are the frames and the batches,
`Delivery` sender and peer with lost replies, refusals, a time budget,
overlapping requests and restarts, and `Resend` when handling ops again is harmless.

**The Raft store** (`internal/cluster/filestore.go`). `RaftLog` is its contents,
records and replay; `RaftStore` a machine whose compaction may be cut off
between any two file calls; `RaftSafety` its guarantees; `RaftFlaws` where lazy
fsync keeps less; `RaftFiles` the class.

A machine's state carries the files that a power loss may leave, each with the
part of it that is known to be fsynced. An fsync proves only what was written or
renamed since the last failed one of that file or directory, also one by an earlier
process: a log, which only grows, is never trusted again, a fresh rename is. Every write, truncation, fsync, rename and directory fsync may fail. A
run is a sequence of states and the events between them, so a statement about
every index of every run is one about every reachable state.

## Where the code keeps less than it says

Each of these has an example as a lemma, and the exact condition or the guard
under which the promise holds.

- `loadWAL` skips a torn last line of a peer log without cutting it off
  (`internal/peers/sync.go:345-349`), so the next record runs on from it:
  `PeerLog.AckAfterTornTail`, `PeerLog.TornAckLosesNextAck`.
- A worker whose log fails to load goes on with what was read before
  (`internal/peers/sync.go:309-311`) and appends to a log that never loads again:
  `PeerWorker.Worker.ReadLog`, `PeerLog.FailedLoadStays`.
- `syncTo` takes "the file was replaced" as success even when the other
  caller's checkpoint failed (`internal/peers/sync.go:577-579`):
  `PeerSafety.TrustedCheckpointExact`, `PeerSafety.FailedCheckpointBreaksPromise`.
- `syncTo` tests the number before it takes the lock and not again
  (`internal/peers/sync.go:561-565`). If a checkpoint comes in between and the
  fsync of its file fails, nobody rewrites that file, the next `syncTo` fsyncs it
  again and reports ops that a power loss loses: `PeerSafety.LateCheckBreaksPromise`;
  exactly when: `PeerSafety.LateExactly`, `PeerSafety.LateFinishExact`; and from
  every such state, unless the next append rewrites the log anyway:
  `PeerSafety.LateFinishBreaksPromise`.
- A process killed between the rename of a checkpoint and the fsync of the
  directory starts again without that fsync (`internal/peers/sync.go:331-384`);
  its next `syncTo` reports ops that are lost if the old file comes back:
  `PeerSafety.KilledRenameBreaksPromise`, and from every state that goes on with
  such a file: `PeerSafety.GoingOnBreaksPromise`. All the other states of a run keep
  their promises exactly if every trusted checkpoint was right: `PeerSafety.PromisesExactly`;
  for every state: `PeerSafety.EveryPromiseExactly`.
- A peer that still works on a request the sender gave up on can undo a later op
  (the comment at `internal/peers/sync.go:481-482` says the peer ends the same):
  `Delivery.OverlapRegresses`, and exactly when it does not: `Delivery.DrainedExactly`.
- A vacuum only logs a failed fsync of the old file and of the directory
  (`internal/db/db.go:705-708`, `internal/db/db.go:794-804`); under `always` an
  acknowledged write can then be lost: `AofFlaws.IgnoredFsyncLosesWrites`,
  `AofFlaws.UnsyncedRenameLosesWrites`, and exactly when: `AofSafety.ReleaseExact`,
  `AofSafety.AlwaysExactly`. A process that exits after a failed fsync, or between
  the rename and the fsync of the directory, and starts again on the same pages is
  one of these cases: `AofSafety.RestartStarts`.
- A vacuum's snapshot can be ahead of the records queued behind it, so a restart
  applies some of them twice: `AofAhead.SnapshotAheadDoubles`; exactly when writes
  along keys then give what no prefix of them gave: `AofAhead.AheadExactly`; and when
  an acknowledged one is undone: `AofAhead.HoldsExactly`.
- `Replace` keeps its input as the snapshot: `Document.Store.Replace` is right
  exactly for rendered text, `Document.ReplaceUnrendered`.
- A key or text with a newline does not survive the append-only file:
  `AofLog.ReadsBackExactly`.
- The Raft store does not fsync the old log before a compaction, and its
  background loop fsyncs again after a failed fsync: `RaftFlaws.LazyCompactionRegresses`
  and exactly when not, `RaftFlaws.LazyCompactionExact`, `RaftFlaws.EarlyCompactionExact`, `RaftFlaws.NewCheckpointExactly`;
  `RaftFlaws.FailedLoopSyncForgetsTerm` and exactly when not,
  `RaftSafety.SetIsFirmExactly`, until a compaction mends it, `RaftSafety.CompactionIsFirm`.
- After a failed fsync of its log or directory the Raft store fails the call, but a
  process that starts again goes on with the same files: `RaftFlaws.FailedCallSyncForgetsVote`,
  `RaftFlaws.FailedDirSyncForgetsTerm`; exactly when not: `RaftSafety.SetIsFirmExactly`.
- The Raft store fsyncs nothing that it loads, but for the cut of a torn record
  (`internal/cluster/filestore.go:159-212`), so a term that a killed process wrote and
  the next one read can be gone after a power loss: `RaftFlaws.KilledProcessForgetsTerm`;
  exactly which values cannot: `RaftSafety.FirmExactly`.
- The low bound of the Raft store takes index 0 for "none yet":
  `RaftFiles.LowIsLowestExactly`.

## Model

| member | source | states |
|---|---|---|
| `PeerSafety.SyncKeepsPromise` | internal/peers/sync.go:555-588 | In every run of enqueues, acks, checkpoints, syncs and file failures, as long as no other caller's checkpoint fails during an fsync and no syncTo went on with the file in use after a failed fsync, every op numbered up to what syncTo returned nil for is acked or replayed from every image a power loss may leave, also one inside the last step |
| `PeerSafety.LateExactly` | internal/peers/sync.go:559-579 | A syncTo goes on with a file whose fsync failed exactly if its number was already synced when it took the lock, which it does not test again there, and the file is still in use with no checkpoint due |
| `PeerSafety.LateFinishExact` | internal/peers/sync.go:574-587 | When a failed fsync has been dealt with, the file that the next sync would fsync has failed before exactly in that case |
| `PeerSafety.GoingOnBreaksPromise` | internal/peers/sync.go:555-588 | From every reachable state between group commits in which a syncTo, or a whole process, went on with a file after a failed fsync, or a process with one that an older file may still replace, one more op and one more syncTo are enough for a nil about an op that a power loss loses, unless the next append rewrites the log anyway |
| `PeerSafety.LateFinishBreaksPromise` | internal/peers/sync.go:574-588 | From every state such a finish leaves, unless the next append rewrites the log anyway: the failed file is fsynced again, and syncTo returns nil for an op that a power loss loses |
| `PeerSafety.KilledRenameBreaksPromise` | internal/peers/sync.go:331-384 | A process killed between a checkpoint's rename and the fsync of the directory never repeats that fsync when it starts again: its first syncTo returns nil for an op that a power loss loses |
| `PeerSafety.LateCheckBreaksPromise` | internal/peers/sync.go:559-579 | A run from an empty queue in which no checkpoint fails that ends so: another caller's checkpoint comes between syncTo's test and its lock, and the fsync of the new file fails |
| `PeerSafety.TrustedCheckpointExact` | internal/peers/sync.go:574-579 | After a failed fsync of a file that is no longer the worker's, syncTo's "the file was replaced" branch is right exactly when a checkpoint recorded the op or the op is acked |
| `PeerSafety.PromisesExactly` | internal/peers/sync.go:555-588 | Over whole runs, whatever fails and interleaves: what syncTo promised survives in every state in which no file with a failed fsync, and none that an older one may replace, is gone on with, exactly if every syncTo that trusted another caller's checkpoint found its op synced or acked |
| `PeerSafety.EveryPromiseExactly` | internal/peers/sync.go:555-588 | In every state of every run, those included: what syncTo promised survives exactly if besides, while a file that is not to be trusted was gone on with, syncTo returned nil only for ops that were acked or on disk in every file that may come back |
| `PeerSafety.FailedCheckpointBreaksPromise` | internal/peers/sync.go:574-587 | A run in which a checkpoint fails during the fsync: syncTo returns nil for an op that a power loss loses |
| `PeerSafety.SurvivesExactly` | internal/peers/sync.go:590-597 | In every reachable state but the instant between an fsync and its recording, and unless a syncTo went on with the file in use after a failed fsync, exactly the ops up to synced, and all if acked, are safe: synced is neither too high nor too low |
| `PeerSafety.SurvivesOnDisk` | internal/peers/sync.go:590-597 | In every reachable state, those too: an op survives exactly if it is acked or every file that may come back has it on disk |
| `PeerSafety.NeverFsyncedAgain` | internal/peers/sync.go:580-584 | No file in use was fsynced again once an fsync of it failed, unless a syncTo went on with it (exactly when: LateExactly) |
| `PeerSafety.OnDiskStays` | internal/peers/sync.go:386-684 | The ops that every file a power loss may leave has on disk, at the start of a run or later, stay there through every step and every failing file call |
| `PeerSafety.RestartStarts` | internal/peers/sync.go:331-384 | A file left after any run and cut between two records is a log that runs start from again, with the queue the load gives and all that was on disk still there; a process that ends without a power loss keeps the older files that may come back, and what a failed fsync spoilt |
| `PeerSafety.CrashLoadsSlice` | internal/peers/sync.go:331-404 | After any run with failed and partial writes, whichever file is left and at whichever byte it is cut, a restart reads a contiguous slice of the enqueue history that starts no later than the first unacked op and holds all that was fsynced |
| `PeerSafety.LogEqualsQueue` | internal/peers/sync.go:617-634 | Between operations, unless a checkpoint is due, the file at the path replays to exactly the pending ops, and no older one may come back unless the process started with one |
| `PeerSafety.DeadRecords` | internal/peers/sync.go:691-694 | The file holds the pending records and exactly two more per op acked since the last checkpoint |
| `PeerSafety.CheckpointsAreAmortized` | internal/peers/sync.go:629-632 | Over any run whose file calls succeed, threshold checkpoints rewrite at most two records per acked op, and the file holds fewer than pending + max(512, pending) records after every operation |
| `PeerSafety.RewritesExactly` | internal/peers/sync.go:629-694 | In every run, an enqueue or an ack whose file calls work rewrites the log exactly if at least 512 of its records are dead by then, two for each op acked since the last checkpoint, and no fewer than the ops that are left |
| `PeerQueue.StepKeeps` | internal/peers/sync.go:386-684 | Every step, with every outcome of its file calls, keeps the invariant that ties queue, numbers, files and phases of a group commit together |
| `PeerLog.LoadCut` | internal/peers/sync.go:344-374 | A log of records and a torn one, cut at any byte, reads back as the replay of a prefix no shorter than what ended before the cut |
| `PeerLog.AckAfterTornTail` | internal/peers/sync.go:345-349 | The loader does not cut a torn last line off: an ack appended after such a load is read back as an ack exactly when the torn tail was blank |
| `PeerLog.OpAfterTornTail` | internal/peers/sync.go:345-349 | The next op appended is read back exactly when the torn tail was blank, and else the file is refused, unless the tail begins an op record itself |
| `PeerLog.FailedLoadStays` | internal/peers/sync.go:309-314 | The worker goes on after a failed load: whatever is appended to a log that does not load, it never loads |
| `PeerLog.TornAckLosesNextAck` | internal/peers/sync.go:345-349 | A crash after the first byte of an ack makes the next load fail once one more ack is appended |
| `PeerLog.LoadEncoded` | internal/peers/sync.go:354-374 | A log of records and a torn tail loads as the replay of the records |
| `PeerLog.LoadsExactly` | internal/peers/sync.go:354-374 | Any file fails to load exactly if one of its whole lines is neither blank nor a record that decodes, and else loads as the replay of its records |
| `PeerLog.RecordMeans` | internal/peers/sync.go:354-374 | An op goes last, an ack drops the first op, and an ack that finds none does nothing |
| `Lines.TrimsExactly` | internal/peers/sync.go:350-353 | The six one-byte spaces around a line are cut off, and nothing else |
| `PeerQueue.PartialContent` | internal/peers/sync.go:613-616 | A failed write after any number of bytes leaves a file of whole records and a newline-free beginning of the next one |
| `PeerWorker.Worker.ReadLog` | internal/peers/sync.go:342-375 | The loading loop fails exactly when a line is no record, leaving what the lines before it gave, and else leaves the queue and the record count of the file |
| `PeerWorker.Worker.LoadWAL` | internal/peers/sync.go:331-384 | Loads the queue, opens the file, and rewrites it exactly if enough of it is dead; the new state is the loaded one, opened or rewritten; a failed load leaves the part of the queue read so far |
| `PeerWorker.LoadedViewOk` | internal/peers/sync.go:331-384 | The log of an earlier process, any part of it fsynced and older files perhaps still to come back, loads into a state that runs start from |
| `PeerWorker.WrittenLoads` | internal/peers/sync.go:331-384 | A log this code wrote loads as the history after the acked ops, each record counted once |
| `PeerWorker.Worker.Enqueue` | internal/peers/sync.go:386-404 | Appends the op to the queue whatever the file does; fields and file are those of the machine's enqueue step; the number is returned only if the record was written |
| `PeerWorker.Worker.AckN` | internal/peers/sync.go:539-551 | Drops min(n, pending) ops with one write; fields and file are those of the machine's ack step; fails exactly if that leaves a checkpoint due |
| `PeerWorker.Worker.AppendLocked` | internal/peers/sync.go:617-634 | A due checkpoint replaces the append; a failed open or write makes one due and leaves exactly the written bytes; an append that works checkpoints at the threshold |
| `PeerWorker.Worker.WriteRecord` | internal/peers/sync.go:624-628 | One write that may fail after any number of bytes |
| `PeerWorker.Worker.CheckpointLocked` | internal/peers/sync.go:639-684 | Rewrites the file to the pending ops: exactly one of four outcomes, and needCheckpoint is set exactly on error |
| `PeerWorker.EncodeQueue` | internal/peers/sync.go:651-658 | The loop that renders the queue writes one E record per op, in order |
| `PeerWorker.RepeatAck` | internal/peers/sync.go:550-550 | The repeated ack text is one A record per acked op |
| `PeerWorker.Worker.SyncToTest` | internal/peers/sync.go:555-563 | syncTo's test of the number, without the worker's lock: done exactly if the number is synced |
| `PeerWorker.Worker.SyncToLocked` | internal/peers/sync.go:565-573 | syncTo under the lock, after whatever ran since the test: a due checkpoint, whose failure is the error, or the open file and the target to fsync, with no second test |
| `PeerWorker.Worker.SyncFailed` | internal/peers/sync.go:574-586 | syncTo after a failed fsync: content if the number is synced or the file is another, or else the log is rewritten, and it fails exactly if that fails |
| `PeerWorker.Worker.SyncToFinish` | internal/peers/sync.go:574-588 | syncTo after its fsync: nil if that worked, and else exactly the above |
| `PeerWorker.Worker.SyncTo` | internal/peers/sync.go:555-588 | These parts one after another, when no other caller comes in between: it fails exactly if the number was not synced, the checkpoint fails, and there was no file to fsync or its fsync failed; an error promises nothing new |
| `PeerWorker.Worker.MarkSynced` | internal/peers/sync.go:590-597 | The compare-and-swap loop, with other callers raising synced between a load and the swap: it ends at least at its number, lowers nobody's raise, and sets no value that nobody asked for |
| `PeerWorker.Worker.RewriteIfBroken` | internal/peers/sync.go:275-279 | syncAll retries a checkpoint exactly when one is due, and fails exactly if that fails |
| `PeerWorker.Worker.ReclaimableLocked` | internal/peers/sync.go:691-694 | At least 512 dead records and no fewer than the ops to write back |
| `PeerWorker.Worker.PeekBatch` | internal/peers/sync.go:521-532 | A prefix of the queue, non-empty if the queue is, at most 256 ops and within the byte bound unless it is one op, and cut only because the next op exceeds a bound |
| `Delivery.DeliveryIsSafe` | internal/peers/sync.go:413-496 | Under any lost replies, resends, overlapping requests and restarts of the sender the peer first handles the ops in queue order without a gap, and the sender acks only ops the peer handled or that convert to no write |
| `Delivery.RepliesProgress` | internal/peers/sync.go:435-448 | In every run, whatever is lost, out of time or rejected, replies and drops are no more than the acked ops, the replies that refused the first op of their batch, and the acks that restarts forgot |
| `Delivery.DrainsInOneReplyPerOp` | internal/peers/sync.go:418-448 | So with a peer that refuses no op, n queued ops drain in at most n replies and one more for every ack that a restart forgot, whatever the time budget lets each batch take |
| `Delivery.CrashRestarts` | internal/peers/sync.go:331-384 | Whichever file a crash leaves of the sender's log and wherever it is cut, the restarted sender goes on with just the ops it loads, and forgets acks but no op before them, unless the crash took an op that was sent |
| `Delivery.DrainedExactly` | internal/peers/sync.go:479-486 | Once the queue is empty, whatever was lost, sent again or overlapped: the peer ends as if each op was handled once, for every choice of sets and deletes along object keys and up to key order, exactly if it handled the ops for the last time in queue order |
| `Delivery.OneAtATimeInOrder` | internal/peers/sync.go:479-486 | A peer that works on one request at a time does so, also when the sender restarts and sends acked ops again |
| `Delivery.DrainedPeerMatches` | internal/peers/sync.go:479-486 | In both cases the peer has the document that the queued sets and deletes give in order |
| `Delivery.OverlapRegresses` | internal/peers/sync.go:479-486 | Without that, a run in which both ops are acked and the peer ends with the older value |
| `Resend.SameViewExactly` | internal/peers/sync.go:479-482 | Two documents look the same at every path of keys exactly when they are equal up to key order |
| `Resend.ApplyEffect` | internal/db/tree.go:398-484 | What one set or delete along object keys does at every path: a function of the write and the old value there |
| `Resend.HarmlessExactly` | internal/peers/sync.go:479-486 | Ops may be applied again and out of order exactly as long as their last times are in queue order: that is both needed and enough for the document of each op applied once, over all key-only histories and start documents |
| `Resend.GentleReplay` | internal/peers/sync.go:479-486 | Writes applied in order, with earlier stretches applied again any number of times, give the document of each write applied once, up to key order |
| `Resend.BatchAgain` | internal/peers/sync.go:547-550 | A whole batch applied again after any prefix of it gives the same document, up to key order |
| `PeerProtocol.QueuedOpsReadBack` | internal/peers/proto.go:68-89 | toOp gives a queued set, delete or vacuum back as meant; a clone with a slash in a key is refused, never misread |
| `PeerProtocol.OpReadsBack` | internal/peers/proto.go:91-141 | An op within the frame limit is decoded to itself, consuming exactly its bytes |
| `PeerProtocol.BatchReadsBack` | internal/peers/proto.go:251-261 | A batch of at most 256 ops is decoded to itself, consuming exactly its bytes |
| `PeerProtocol.ResultReadsBack` | internal/peers/proto.go:263-277 | A batch result is decoded to itself whatever order the peer's map was iterated in |
| `PeerProtocol.WriteOp` | internal/peers/proto.go:91-110 | Writes exactly the encoding of the op |
| `PeerProtocol.ReadOp` | internal/peers/proto.go:112-141 | Reads exactly what the decoding function says, and fails where it does |
| `PeerProtocol.ReadBatch` | internal/peers/proto.go:251-261 | The loop reads exactly the decoded batch, or fails |
| `PeerProtocol.ReadRejects` | internal/peers/proto.go:351-361 | The loop over the rejected ops |
| `PeerProtocol.ReadResult` | internal/peers/proto.go:343-364 | Reads exactly the decoded result, or fails |
| `PeerProtocol.ApplyBatch` | internal/peers/proto.go:170-191 | Done is as many ops as the outcomes and the time budget let it take; they were not refused, rejected ones are recorded with their message, and the batch stops short only at a refused op or, after the first, out of time |
| `PeerProtocol.TakesFirstExactly` | internal/peers/proto.go:176-184 | However late it is, a batch takes its first op exactly unless the peer refuses it |
| `Wire.UvarintPut` | internal/wire/wire.go:19-40 | A 64-bit count written as a uvarint is read back, consuming exactly its bytes |
| `Wire.UnframeFrame` | internal/wire/wire.go:19-40 | A frame within the limit is read back, consuming exactly its bytes |
| `Wire.LongFrameRefused` | internal/wire/wire.go:34-36 | A frame over the limit is refused whatever follows |
| `Wire.LongCountRefused` | internal/peers/proto.go:159-168 | A count over its limit is refused |
| `Wire.UvarintFits` | internal/wire/wire.go:30-33 | Whatever the bytes, a number that is read fits 64 bits and takes at most ten of them |
| `Wire.Writer.WriteFrame` | internal/wire/wire.go:19-26 | Appends exactly the length and the bytes |
| `Wire.Reader.ReadFrame` | internal/wire/wire.go:29-40 | Takes one frame off the stream, or fails |
| `Wire.Reader.ReadUvarint` | internal/wire/wire.go:30-33 | At most ten bytes and 64 bits |
| `Wire.Reader.ReadCount` | internal/peers/proto.go:159-168 | A count over its limit is refused |
| `Formats.OpBytes` | internal/peers/proto.go:91-110 | The bytes of each op and of a batch, in an example |
| `Formats.ResultBytes` | internal/peers/proto.go:263-277 | The bytes of a batch result, in an example |
| `Formats.UvarintBytes` | internal/wire/wire.go:19-26 | Seven bits a byte, the low ones first, in examples |
| `Formats.Limits` | internal/peers/proto.go:112-141 | A batch of 256 ops and a text of 64 MiB are read, one more of either is refused |
| `Formats.QueuedShapes` | internal/peers/proto.go:68-89 | The requests a queue holds and the ops they become, in examples |
| `Formats.AofText` | internal/db/db.go:913-921 | The lines of each record |
| `Formats.PeerText` | internal/peers/sync.go:386-404 | The lines of an op and of an ack |
| `AofSafety.CrashReloads` | internal/db/db.go:829-1000 | After any run under any policy with any failed, short or uncut writes, whichever file is left and at whichever byte it is cut, a restart loads (hole for null) the document of the file's snapshot and then, in order, some of the writes after it, no fewer than were fsynced; and the file it then cuts back loads the same |
| `AofSafety.CrashReloadsPrefix` | internal/db/db.go:829-1000 | If every vacuum found no write queued behind it, that is the document after some prefix of the accepted writes |
| `AofAhead.AheadExactly` | internal/db/db.go:777-792 | If one did not, the file loads as the document after some prefix of the writes, for all sets and deletes along object keys and up to key order, exactly if none of the records that its snapshot already holds is in it, or all of them; in between a file loads as what no prefix gives |
| `AofSafety.ReleaseExact` | internal/db/db.go:981-988 | Under always, after the end of a batch every image of every file that may come back has all acknowledged writes exactly if each older file and, if an fsync of it ever failed, the current one is fsynced up to the last write taken, or has it in its snapshot and no image of it ends at a record before it |
| `AofSafety.ReleasableExactly` | internal/db/db.go:981-988 | With records still to be written that is: the snapshot of every such file is ahead of the last write taken and at most one record of it can follow; if no vacuum found writes queued, no older file may come back and no fsync of the current one has failed |
| `AofSafety.AlwaysExactly` | internal/db/db.go:850-999 | Over whole runs: no image of any state lacks an acknowledged write exactly if that held whenever clients were let go |
| `AofAhead.HoldsExactly` | internal/db/db.go:593-636 | What lacking means for the documents: an image keeps the first a writes, for all sets and deletes along object keys and every document, exactly if they are all in its records or all in its snapshot with no record after it that is older than the last of them |
| `Resend.RetainsExactly` | internal/peers/sync.go:479-486 | Writes applied again and out of order keep the first a of them, at every path of keys, exactly if each is applied and for the last time after all before it |
| `AofSafety.AlwaysKeepsAcknowledged` | internal/db/db.go:850-999 | Then every crash, at any byte and also inside a vacuum, leaves all acknowledged writes, and the records of all that were durable when the run started |
| `AofSafety.CleanReleasesSafely` | internal/db/db.go:697-736 | That holds in every run that starts with a good file and whose vacuums, but for the last step, swallow no error that matters |
| `AofSafety.DurableStays` | internal/db/db.go:850-999 | Under any policy, what every file that may come back has on disk stays on disk |
| `AofSteps.SyncExact` | internal/db/db.go:937-997 | After a tick under everysec, or a close under any policy, whose file calls work, every image of every file that may come back has all the writes taken so far exactly if each older file, and the current one if an fsync of it had failed, is good for them; or nothing was taken since the load and what was loaded is good |
| `AofSteps.SyncsExactly` | internal/db/db.go:989-997 | Over whole runs: from that tick or close on, no image of any state lacks a write that was taken before it exactly under that condition |
| `AofSteps.SyncedSurvives` | internal/db/db.go:989-997 | So under everysec a crash at any later byte leaves every write taken before the last tick that worked, and under every policy every write taken before the close |
| `AofSteps.SyncableExactly` | internal/db/db.go:989-997 | If no vacuum found writes queued, the condition is that no older file may come back and no fsync of the current one failed |
| `AofSteps.NeverSyncs` | internal/db/db.go:981-997 | Nothing becomes durable by a tick under another policy or the end of a batch under any but always |
| `AofSteps.TakeBounds` | internal/db/db.go:953-959 | In the middle of a batch the buffer is written out once it holds 64 KiB, and a write that leaves it below that changes nothing in the file |
| `AofSteps.VacuumRewrites` | internal/db/db.go:923-936 | A vacuum whose rename works leaves one fsynced snapshot that loads as the document of that instant, an empty buffer and nothing to fsync; the old file may come back only if the directory fsync failed |
| `AofSteps.FailedVacuumKeeps` | internal/db/db.go:697-726 | Any other vacuum leaves the records where they were, or writes some of them out |
| `AofSteps.AcceptExactly` | internal/db/db.go:383-428 | A write is accepted exactly unless the writer is gone, writes are refused, or it is a set that meets an array at a segment that is no index; between batches writes are refused exactly while earlier ones wait for the file; one that is not accepted changes nothing |
| `AofSafety.EveryImage` | internal/db/db.go:850-902 | No file promises more: of each file a crash can leave every image that ends at a record after its fsynced part, so what is said of every image is said of nothing else |
| `AofSafety.WriterIsExact` | internal/db/db.go:848-888 | The file followed by the buffer and the queue is exactly the history since the last snapshot, nothing twice or skipped; size is the file's length; between batches writes are refused exactly while the buffer is not empty |
| `AofSafety.RestartStarts` | internal/db/db.go:593-650 | The state a restart makes of a cut file is one that runs start from, with the writes it found, so all of this holds through any number of crashes; after the end of a process alone the older files and what a failed fsync spoilt are still there, a failing fsync of the load's own cut spoils the file too, and acknowledged writes that were kept are among those found |
| `AofQueue.StepKeeps` | internal/db/db.go:829-1000 | Every step of the writer, with every outcome of its file calls, keeps the invariant |
| `AofFlaws.UnsyncedRenameLosesWrites` | internal/db/db.go:794-804 | A vacuum whose directory fsync fails, which the code only logs: a run under always that loses an acknowledged write |
| `AofFlaws.IgnoredFsyncLosesWrites` | internal/db/db.go:705-726 | A vacuum whose fsync of the old file and whose rename fail, the first only logged: a run under always that loses an acknowledged write |
| `AofAhead.SnapshotAheadDoubles` | internal/db/db.go:923-936 | A run with no failing file call and an append queued behind a vacuum: the restart applies it twice, a document no prefix of the writes gave |
| `AofLog.CutReads` | internal/db/db.go:593-659 | A file of records cut at any byte reads back as a prefix of them that keeps each one ending before the cut, and is repaired to exactly their text |
| `AofLog.ReadsBackExactly` | internal/db/db.go:913-921 | A file reads back as the records written to it exactly when no key or text has a newline |
| `AofLog.LinesMean` | internal/db/db.go:593-636 | What each line of any file starts: a set and a snapshot take the next line too and are no record without it, a delete is one line, any other line is passed over |
| `AofReader.ReadRecord` | internal/db/db.go:596-636 | One turn of the loading loop: the record at the position and where the next one starts, or that the file ends or ends inside a record |
| `AofWriter.ReplayAOF` | internal/db/db.go:593-650 | The loading loop leaves the document of the file's whole records, and the length of what they take up |
| `AofWriter.Writer.Flush` | internal/db/db.go:850-873 | All of the buffer reaches the file, or none of it after the cut, or the writer stops; size, flags and buffer accordingly |
| `AofWriter.Writer.FlushOrFail` | internal/db/db.go:850-888 | A flush and what is done with its error, as one step of the machine |
| `AofWriter.Writer.SyncNow` | internal/db/db.go:892-902 | An fsync that fails ends the writer |
| `AofWriter.Writer.Release` | internal/db/db.go:903-908 | Closes the channel of every waiting client, in order, and forgets them |
| `AofWriter.Writer.Buffer` | internal/db/db.go:913-951 | The text appended for a set or delete is the encoding of its record; under always its client waits |
| `AofWriter.Writer.TakeWriteRow` | internal/db/db.go:913-961 | A queued write, with the bound on the buffer |
| `AofWriter.Writer.Bound` | internal/db/db.go:954-959 | Flushes once the buffer holds 64 KiB |
| `AofWriter.Writer.EraseAndDump` | internal/db/db.go:697-736 | The file becomes one snapshot record exactly if the rename works, and stays as it was if not |
| `AofWriter.Writer.TakeDumpRow` | internal/db/db.go:923-936 | A vacuum that works also covers records a failed write left in the buffer |
| `AofWriter.Writer.EndBatch` | internal/db/db.go:981-988 | One write and, under always, one fsync for the whole batch before its clients go on |
| `AofWriter.Writer.Tick` | internal/db/db.go:989-997 | Retries a failed write; fsyncs only under everysec (what that is for: AofSteps.SyncExact, NeverSyncs) |
| `AofWriter.Writer.Close` | internal/db/db.go:937-950 | The last write and fsync, in a batch or not and whatever is queued after it, then the clients go on and the writer is gone |
| `Document.WriteRecordSame` | internal/db/db.go:383-428 | Loading a write's record does (hole for null) what the write did in memory |
| `Document.ReloadSame` | internal/db/db.go:593-636 | So does loading the records of any number of writes |
| `Document.SnapshotSame` | internal/db/db.go:618-631 | Loading a snapshot record gives the document, whatever was there before |
| `Document.NumberStored` | internal/db/db.go:277-285 | Every number that is loaded is stored as that text, or as it is if its float is out of range |
| `Document.ParsedNumbers` | internal/db/tree.go:126-153 | So is every number however deep in a document that is loaded |
| `Document.RenderedNode` | internal/db/db.go:277-285 | A value's stored text is read back as the value, hole for null |
| `Document.RenderNewlineFree` | internal/db/tree.go:90-122 | A well-formed document's text has no newline |
| `Document.Store.SetNode` | internal/db/db.go:320-330 | Succeeds exactly when no array on the path meets a non-index, does what the segments say, and a failed set changes nothing |
| `Document.Store.DelOnly` | internal/db/db.go:414-419 | Deletes the segments of the path and marks the cache stale |
| `Document.Store.CloneSource` | internal/db/db.go:502-508 | The first section of a clone finds the source |
| `Document.Store.CloneStore` | internal/db/db.go:509-526 | The second one stores a copy and reports its text, empty if the set failed |
| `Document.Store.SnapshotCached` | internal/db/db.go:464-471 | Returns the cached text exactly when no write made it stale, and then it is the document's |
| `Document.Store.SnapshotRebuilt` | internal/db/db.go:473-480 | Returns the text of the document at that instant, whatever ran in between |
| `Document.Store.Replace` | internal/db/db.go:482-498 | Takes over a document; the cache is right afterwards exactly if the text is a rendering |
| `Document.ReplaceRendered` | internal/db/db.go:482-498 | Restoring a rendered document keeps the cache right |
| `Document.ReplaceUnrendered` | internal/db/db.go:492-495 | Restoring other text of a document does not |
| `RaftSafety.KeysNeverRegress` | internal/cluster/filestore.go:545-578 | In both fsync modes, at every point of every call and compaction, a power loss leaves each key as the last returned set of it or the one in progress left it, never older, unless an fsync of the log in use has failed in this process or in one before it, an older file may still come back, or a killed process left what is not fsynced yet |
| `RaftSafety.SetIsFirmExactly` | internal/cluster/filestore.go:268-277 | When the set of a term or vote returns, it is on disk exactly if each log that may still come back, over each such checkpoint, is the one written to and no fsync of it has failed in any process, or its fsynced part already gave that value and no record after it another; one log and one checkpoint, unless a directory fsync failed |
| `RaftSafety.FirmExactly` | internal/cluster/filestore.go:342-356 | In every state of every run, for keys and entries alike, whatever fsyncs failed and whatever files may come back: a value is in memory and in everything a power loss may leave exactly if memory has it and, of each log over each checkpoint, the fsynced part gives it and no record after that another |
| `RaftSafety.FirmWhenReturned` | internal/cluster/filestore.go:268-277 | Between calls, with no failed fsync of the log in any process, no older file and nothing loaded unfsynced, that is every key, and every entry once nothing waits for its fsync |
| `RaftSafety.CompactionIsFirm` | internal/cluster/filestore.go:285-306 | A compaction that ends makes every key and entry safe again, whatever fsyncs of the log and the directory failed before |
| `RaftSafety.LoopIsFirm` | internal/cluster/filestore.go:342-356 | A turn of the background loop that works makes every append that returned safe, unless an fsync of the log failed before, an older file may come back or the load left something unfsynced |
| `RaftSafety.LoadedSyncs` | internal/cluster/filestore.go:268-277 | The store that is loaded after a power loss fsyncs every append, of entries too, before it returns, until it is told otherwise: what the first call wrote is in memory and in everything a second power loss may leave |
| `RaftSafety.FailedCutLoses` | internal/cluster/filestore.go:199-215 | If the fsync after a torn record is cut off fails, a later call that returns with a nil error may still be lost, with every record since the last fsync that worked |
| `RaftSafety.VoteStays` | internal/cluster/filestore.go:268-277 | A term, vote or entry that is once in memory and in everything a power loss may leave, and likewise the absence of one, stays there through any calls, failed calls and fsyncs, power losses, killed processes and restarts, until a call makes it something else |
| `RaftSafety.DeleteRangeReturns` | internal/cluster/filestore.go:527-543 | Once a DeleteRange returned, each index of its range is gone from memory and from every image, and everything else is in memory and in every image as it was |
| `RaftSafety.DeletedStaysGone` | internal/cluster/filestore.go:527-543 | And it stays gone through any calls, failures, power losses and restarts until a call stores an entry there |
| `RaftSafety.DeleteRangeCrash` | internal/cluster/filestore.go:285-306 | With a log that is all fsynced and no older file left, a power loss anywhere inside DeleteRange leaves everything outside the range as it was and each index inside it absent or with its old entry |
| `RaftSafety.NothingReturnedIsLost` | internal/cluster/filestore.go:268-277 | With such a log a power loss outside a compaction loses no call that returned |
| `RaftSafety.LazyLosesLatestOnly` | internal/cluster/filestore.go:278-282 | Under everysec, while the old checkpoint is there or may come back, also inside a compaction and whatever fsyncs failed, the store reloads as it was after some prefix of the calls, at least all but those whose records were not fsynced |
| `RaftSafety.CutIsImage` | internal/cluster/filestore.go:159-212 | Whatever byte the log is cut at after what was fsynced, the load gives one of the machine's images, leaves a log of exactly the records it loaded, and cuts something off only where the machine has a torn record |
| `RaftStore.StepKeeps` | internal/cluster/filestore.go:248-315 | Every step of every call keeps the invariant, with every failing file call, every power loss and every end of the process |
| `RaftFlaws.LazyCompactionExact` | internal/cluster/filestore.go:285-306 | The compaction does not fsync the old log first: from the directory fsync after its first rename to its end, every image has a slot outside the range as memory does exactly when no append that waits for its fsync replaces another entry of the log there, and any older log that a failed directory fsync left agrees |
| `RaftFlaws.EarlyCompactionExact` | internal/cluster/filestore.go:285-306 | Before that, while the old checkpoint may come back, exactly when the fsynced part of the log gives the slot what memory has and no record after it another |
| `RaftFlaws.NewCheckpointExactly` | internal/cluster/filestore.go:285-306 | What a power loss leaves over the new checkpoint is the store after the first n of the calls exactly if the calls between those the log kept and n leave what it kept as it was, and those after n leave everything else, for every n |
| `RaftFlaws.LazyCompactionRegresses` | internal/cluster/filestore.go:285-306 | A run in which one does: after the power loss an old entry stands beside a new one of the same call |
| `RaftFlaws.FailedLoopSyncForgetsTerm` | internal/cluster/filestore.go:342-356 | The background loop retries a failed fsync: a run in which a term whose set returned is then missing after a power loss |
| `RaftFlaws.FailedCallSyncForgetsVote` | internal/cluster/filestore.go:268-277 | The fsync of a set fails, the process ends, and the next one reads the record and fsyncs the same log again: a run in which a vote whose set returned, and the term before it, are gone after a power loss |
| `RaftFlaws.FailedDirSyncForgetsTerm` | internal/cluster/filestore.go:252-262 | The directory fsync after a compaction's last rename fails, and the process ends; the next one's fsync of the directory proves nothing about that rename: a run in which the old log comes back without a term whose set returned |
| `RaftFlaws.KilledProcessForgetsTerm` | internal/cluster/filestore.go:159-212 | The load fsyncs nothing that it read: a run in which a process is killed before the fsync of a term, the next one reads that term, and a power loss with nothing in progress takes the store back to the term before |
| `RaftLog.ReplayAt` | internal/cluster/filestore.go:214-244 | Replay is last writer wins, slot by slot |
| `RaftLog.DeletesRange` | internal/cluster/filestore.go:531-536 | A deleted range is gone, both ends included, and every other key and entry is as it was |
| `RaftLog.StoresEntry` | internal/cluster/filestore.go:501-525 | A stored entry is there under its index, the last one of a call if it has several |
| `RaftLog.StoresNothingElse` | internal/cluster/filestore.go:501-525 | Storing entries changes nothing at other indexes or keys |
| `RaftLog.SetsKey` | internal/cluster/filestore.go:545-578 | A set key has its value, bytes and numbers apart, and nothing else changes |
| `RaftLog.ReplayIdempotent` | internal/cluster/filestore.go:285-306 | Replaying a log over the checkpoint made from it changes nothing |
| `RaftLog.LoadCut` | internal/cluster/filestore.go:159-212 | A log cut at any byte loads as a prefix of its records that keeps all that end before the cut, and is cut back to exactly them |
| `RaftLog.LoadEncoded` | internal/cluster/filestore.go:159-196 | A log of records and a torn one loads as the records and is cut back to them |
| `RaftLog.LoadsExactly` | internal/cluster/filestore.go:159-244 | Any log fails to load exactly if a whole line, but for an unreadable one at the very end, is neither blank nor a record of a known type, and else loads as its records over the checkpoint |
| `RaftLog.DamageIsRefused` | internal/cluster/filestore.go:181-187 | An unreadable record anywhere but at the very end makes the load fail |
| `RaftFiles.FileStore.Load` | internal/cluster/filestore.go:97-109 | Loads the checkpoint and the log over it, and cuts a torn record off; fails exactly where a record is damaged or unknown or that cut or its fsync fails, in the last case with the log already cut |
| `RaftFiles.FileStore.Begin` | internal/cluster/filestore.go:97-109 | What was loaded is a state that runs start from, whatever part of it is fsynced, whatever older files may come back and whichever fsyncs failed before |
| `RaftFiles.FileStore.ReplayWAL` | internal/cluster/filestore.go:159-197 | The replay loop, with the length of what it could read |
| `RaftFiles.FileStore.ApplyRecord` | internal/cluster/filestore.go:214-244 | One record changes the maps as its meaning says |
| `RaftFiles.FileStore.DeleteLogs` | internal/cluster/filestore.go:531-536 | The loop ends for every pair of bounds, the largest included, and removes exactly the entries from the first to the last index of the range |
| `RaftFiles.FileStore.RecomputeBounds` | internal/cluster/filestore.go:452-470 | The bounds are those of some order of the map's keys |
| `RaftFiles.LowIsLowestExactly` | internal/cluster/filestore.go:452-470 | The low bound is the lowest index exactly when there is no entry at index 0 or the map gives it last |
| `RaftFiles.HighIsHighest` | internal/cluster/filestore.go:452-470 | The high bound is always the highest index |
| `RaftFiles.BoundsOf` | internal/cluster/filestore.go:452-470 | Both bounds are zero without entries; the high one is the highest index, and the low one the lowest unless there is an entry at zero |
| `RaftFiles.FileStore.AppendWAL` | internal/cluster/filestore.go:248-283 | Opens the log, writes and, unless it is a lazily fsynced append of logs, fsyncs; fails exactly when one of these does, and leaves the machine's state after that call: a failed fsync of the log or of the directory is remembered |
| `RaftFiles.FileStore.OpenWAL` | internal/cluster/filestore.go:248-263 | An open log is as it was; one that opens has its directory fsynced, and only then are older files gone |
| `RaftFiles.FileStore.StoreEntries` | internal/cluster/filestore.go:501-525 | Memory, files and flags are those of the machine's call, returned or failed |
| `RaftFiles.FileStore.Set` | internal/cluster/filestore.go:545-556 | The same for a set of bytes, always fsynced |
| `RaftFiles.FileStore.SetUint64` | internal/cluster/filestore.go:568-578 | The same for a set of a number, always fsynced |
| `RaftFiles.FileStore.DropRange` | internal/cluster/filestore.go:527-543 | The range is out of memory, both ends included, and every other entry still there; the files are those of the machine's call, which fails exactly if one of its six file calls does, and remembers a failed directory fsync |
| `RaftFiles.FileStore.Compact` | internal/cluster/filestore.go:285-306 | Replaces the checkpoint, then the log, as the machine's steps |
| `RaftFiles.FileStore.PersistSnapshot` | internal/cluster/filestore.go:415-440 | The new checkpoint is in place, and for good, exactly after three calls |
| `RaftFiles.FileStore.MakeCheckpoint` | internal/cluster/filestore.go:385-411 | The checkpoint made from the maps reads back as the maps |
| `RaftFiles.CheckpointReadsBack` | internal/cluster/filestore.go:111-152 | The entries of the map in any order make the same map again |
| `RaftFiles.FileStore.SyncEvery` | internal/cluster/filestore.go:317-338 | Log appends become lazy from here on |
| `RaftFiles.FileStore.SyncIfDirty` | internal/cluster/filestore.go:342-356 | The background loop's turn |
| `RaftFiles.CallIsSteps` | internal/cluster/filestore.go:248-283 | What an append does to the state, with each of its file calls failing or not, is the machine's begin, open, and write or failure |
| `RaftFiles.CallsAreSteps` | internal/cluster/filestore.go:285-306 | Each file call of a compaction that works is one advance of the machine |
| `RaftFiles.FileStore.Get` | internal/cluster/filestore.go:558-566 | A key set to no bytes reads as one never set |
| `RaftFiles.FileStore.GetUint64` | internal/cluster/filestore.go:580-588 | A number that was set reads back, any other key is an error |
| `RaftFiles.FileStore.GetLog` | internal/cluster/filestore.go:484-495 | An entry reads back under its own index |
| `TreeLaws.SetThenLookup` | internal/db/tree.go:288-342 | After a set that succeeds, a lookup of the same path, -1 read as the appended index, finds the value |
| `TreeLaws.SetLeavesOthers` | internal/db/tree.go:288-342 | Every path parting from it at another key or index reads as before, but for padded slots, which read null |
| `TreeLaws.SetAbove` | internal/db/tree.go:288-342 | What stands on the way to a set value is what was there with the rest of the path set in it, or a new object if no container was there |
| `TreeLaws.SetKeepsOrder` | internal/db/tree.go:44-58 | A set keeps the keys of an object in order and with their texts; a new one goes last, quoted |
| `TreeLaws.DeleteKeepsOrder` | internal/db/tree.go:70-82 | A delete drops one entry of an object, or changes one value in it |
| `TreeLaws.DeleteRemovesOnly` | internal/db/tree.go:486-512 | A delete removes exactly its subtree: later elements read one place down and all paths that are not on the way to it as before |
| `TreeLaws.DeleteAbove` | internal/db/tree.go:486-512 | A container on the way is what it was with the rest of the path deleted from it |
| `TreeLaws.LookupNorm` | internal/db/tree.go:260-280 | No lookup tells a padded hole from the leaf null |
| `TreeLaws.SetSame` | internal/db/tree.go:344-350 | Nor does a later set |
| `TreeLaws.DelSame` | internal/db/tree.go:486-512 | Nor does a later delete |
| `JsonTree.SetFailsExactly` | internal/db/tree.go:307-321 | A set fails exactly when its path meets an array with a segment that is no index (which are: TreeIndex.IndexExactly) |
| `TreeIndex.IndexExactly` | internal/db/tree.go:307-321 | A segment is an index exactly if it is digits after an optional sign that name a number from 0 to the largest 64-bit one, a minus sign only before zero |
| `TreeIndex.BaseTen` | internal/db/tree.go:307-321 | The digits are read in base ten, the last one worth the least |
| `TreeIndex.NoElement` | internal/db/tree.go:260-280 | Below zero, or at any text with another character, an array has nothing to find and nothing to delete, and a set fails, but for -1, which appends |
| `TreeIndex.NoSuchElement` | internal/db/tree.go:260-280 | So it is above the largest 64-bit number |
| `TreeIndex.ElementAt` | internal/db/tree.go:288-342 | At a number it is the element with that number that is found, dropped or replaced, and holes fill the array up to it |
| `JsonTree.SetDistinct` | internal/db/tree.go:288-342 | A set keeps the keys of every object distinct |
| `JsonTree.DelDistinct` | internal/db/tree.go:486-512 | So does a delete |
| `JsonTree.TreeLookup` | internal/db/tree.go:260-280 | The lookup loop |
| `TreePaths.PathRefinesSegments` | internal/db/tree.go:391-512 | Set and delete by path equal the segment versions on the split path, for every tree and path |
| `TreePaths.SetPlainRefines` | internal/db/tree.go:398-451 | The plain set walks the same way as the segments of the path |
| `TreePaths.DelPlainRefines` | internal/db/tree.go:460-484 | So does the plain delete |
| `TreePaths.LookupPath` | internal/db/tree.go:362-389 | So does the plain lookup loop |
| `TreePaths.EscapeJoinSplit` | internal/db/tree.go:234-256 | Escaping, joining and splitting any list of segments gives it back |
| `TreePaths.SplitsExactly` | internal/db/tree.go:234-256 | Any path is split into exactly the segments it says: dots part them, a backslash takes the next character as it is, and one at the very end is itself |
| `TreePaths.SplitPath` | internal/db/tree.go:236-256 | The splitting loop |
| `OrderedObject.TreeObj.Get` | internal/db/tree.go:36-42 | The value of the key's entry, if there is one |
| `OrderedObject.TreeObj.Set` | internal/db/tree.go:44-58 | An existing key keeps its place and text; a new one goes last; slices and index stay in step |
| `OrderedObject.TreeObj.Put` | internal/db/tree.go:60-68 | The same, quoting only a new key |
| `OrderedObject.TreeObj.Del` | internal/db/tree.go:70-82 | Removes the one entry and re-indexes the rest: the index is again the exact inverse of the keys |
| `OrderedObject.TreeObj.Reindex` | internal/db/tree.go:79-81 | The re-indexing loop |
| `OrderedObject.PutReads` | internal/db/tree.go:44-58 | The entries behave as a map under set and put |
| `OrderedObject.RemoveReads` | internal/db/tree.go:70-82 | And under del |
| `OrderedObject.KeepsOrder` | internal/db/tree.go:44-68 | Keys stay distinct, in insertion order, with their original texts |
| `OrderedObject.RemoveKeepsOrder` | internal/db/tree.go:70-82 | The remaining keys keep their order |
| `JsonNumbers.CanonicalNumberText` | internal/db/tree.go:157-216 | The scanning loops compute the canonical text |
| `JsonNumbers.ScansExactlyNumbers` | internal/db/tree.go:161-207 | The scanner takes exactly the texts of the grammar of section 6 of RFC 8259 |
| `JsonNumbers.CanonicalAccepts` | internal/db/tree.go:157-216 | Accepted are exactly these numbers, but for floats out of range |
| `JsonNumbers.CanonicalExactly` | internal/db/tree.go:157-216 | By the grammar: an integer is its own canonical text, any other number has the text of its float, and anything else has none |
| `JsonNumbers.CanonicalIdempotent` | internal/db/tree.go:211-215 | Canonical text is a number and its own canonical text, and an integer is kept as it is |
| `JsonStrings.QuoteReadsBack` | internal/db/db.go:157-201 | A quoted key is a JSON string that stands for the key |
| `Formats.QuotedKeys` | internal/db/db.go:157-201 | A key is quoted as it is exactly if it is printable ASCII without quote and backslash, and else character by character (ShortEscapes, LongEscapes) |
| `Formats.ShortEscapes` | internal/db/db.go:157-201 | The short escapes, and which characters stand as they are |
| `Formats.LongEscapes` | internal/db/db.go:157-201 | Other control characters, angle brackets, ampersands and U+2028 and U+2029 are written with four hex digits |
| `Formats.UnicodeEscapes` | internal/db/db.go:157-201 | The four digits are lower-case hex, in examples |
| `Formats.EscapedInOrder` | internal/db/db.go:157-201 | Escaped text is the escapes of its characters in order |
| `Formats.DocumentText` | internal/db/tree.go:90-122 | Rendered text has no space outside strings, in examples |
| `JsonText.ParseRender` | internal/db/tree.go:90-153 | A parser of RFC 8259 gives a well-formed tree's text back as the tree, hole for null |
| `JsonGrammar.ParsesExactly` | internal/db/tree.go:126-153 | A text is read as a document exactly if it is a text of the grammar of RFC 8259 that stands for it: space, nesting, commas and colons, repeated keys, scalars and numbers |
| `StringGrammar.StringsExactly` | internal/db/tree.go:126-153 | A text is a string exactly if it is characters, two-character escapes and four-digit escapes between quotes, none of them a control character |
| `StringGrammar.ShortPiece` | internal/db/tree.go:126-153 | A character stands for itself, and a two-character escape for what it names |
| `StringGrammar.HexPiece` | internal/db/tree.go:126-153 | Four hex digits of either case stand for the character with that number, half a surrogate pair for U+FFFD |
| `StringGrammar.SurrogatePieces` | internal/db/tree.go:126-153 | A surrogate pair stands for one character beyond U+FFFF |
| `StringGrammar.LonePiece` | internal/db/tree.go:126-153 | And its first half before anything but a second one for U+FFFD |
| `JsonText.RenderedReadsBack` | internal/db/tree.go:90-153 | The same inside any longer text, consuming exactly the rendered bytes |
| `JsonText.RenderNorm` | internal/db/tree.go:105-119 | The text does not tell a hole from null |
| `JsonText.ParsedWellFormed` | internal/db/tree.go:126-153 | What the parser returns is well-formed |
| `JsonText.SetWellFormed` | internal/db/tree.go:288-342 | A set keeps a tree well-formed |
| `JsonText.DelWellFormed` | internal/db/tree.go:486-512 | So does a delete |

## Left out

- gjson: query paths (`#`, `*`, `?`) and how it reads text that is not JSON; `JsonText` has a parser of RFC 8259 in its place.
- hashicorp/raft, elections and commit; only the store handed to it is modelled.
- HTTP and TCP front ends, configuration, forwarding, `Mux`, dialling, deadlines, backoff and logging.
- Backup files and their pruning, directory creation, and copies that only guard against shared buffers.
- Convergence of peers that write the same key, which the design does not offer.
- strconv's float text and parse: a parameter (`FloatText`), assumed to round-trip where a lemma says `Shortest`; IEEE 754 itself is not modelled.
- JSON encoding of queued ops and of Raft records: a parameter (`Codec`), assumed injective, newline-free and without surrounding space (`Faithful`).
- The tree's set and delete are functions on values: updates in place and aliasing of nested slices and objects are not captured, since the nodes refer to each other without a fixed depth. Only the ordered object itself is a class.
- Memory and queue of the document: writes are serialized, since `Set` and `Del` queue their record outside the lock.
- The writer's select loop: which event comes next is any, and the file is assumed to open again after a vacuum. A row still queued behind the close row is never taken.
- Power loss: cuts a file at any byte after its fsynced part; lost or reordered pages inside that tail are not modelled. An fsynced file's own directory entry counts as durable, and a missing file as an empty one, so the first creation of a peer log is not a separate step.
- The Raft store after a failed call: no call follows a failed one until the store restarts, since memory is changed before the append and a failed write is not cut back. Closing the store is the background loop's turn and the end of the process, and has no step of its own.
- Several callers of the Raft store at once: its methods hold one lock from start to end.
- The peer queue's log and the delivery of its ops are proved apart: `Delivery` takes acks as given, `PeerSafety` takes the number of acked ops as given. `Delivery.CrashRestarts` ties a restart of the one to a crash of the other; a crash that takes an op already sent from the sender's log is not a step of `Delivery`.
- The peer's document after resent clones and writes through arrays: sending those again can change it.
- Surrounding space in a log line: the six one-byte spaces are trimmed; the longer ones of Unicode, which no record begins or ends with, are not.
- PeerSafety.SyncKeepsPromise: does not cover runs in which another caller's checkpoint fails during the fsync, or states in which a syncTo or a process went on with a file after a failed fsync or before its rename was durable, because the promise is false there (`PeerSafety.FailedCheckpointBreaksPromise`, `PeerSafety.GoingOnBreaksPromise`); `PeerSafety.PromisesExactly` has the exact condition over runs.
- PeerSafety.NeverFsyncedAgain: does not cover the latter, because it is false there (`PeerSafety.LateFinishBreaksPromise`).
- PeerSafety.SurvivesExactly: does not cover the latter either, where more ops may be lost than `synced` says; `PeerSafety.SurvivesOnDisk` does.
- PeerSafety.TrustedCheckpointExact: nor does this.
- PeerSafety.RestartStarts: is stated for a file that ends in a whole record; what a restart makes of a torn end is in `PeerLog`.
- PeerLog.OpAfterTornTail: says nothing of a torn tail that begins an op record, whose text after the next record depends on the JSON decoder.
- AofSafety.CrashReloadsPrefix: does not cover runs in which a vacuum found writes queued behind it, because it is false there (`AofAhead.SnapshotAheadDoubles`); `AofSafety.CrashReloads` does.
- AofSafety.AlwaysKeepsAcknowledged: does not cover runs that let clients go when a file that may come back was not good for it, because the promise is false exactly there (`AofSafety.AlwaysExactly`).
- RaftSafety.KeysNeverRegress: does not cover states in which an fsync of the log in use has failed, or what was loaded is not fsynced yet or an older file may still replace it, because the promise is false there (`RaftFlaws.FailedLoopSyncForgetsTerm`, `RaftFlaws.FailedCallSyncForgetsVote`, `RaftFlaws.KilledProcessForgetsTerm`, `RaftFlaws.FailedDirSyncForgetsTerm`).
- RaftSafety.LazyLosesLatestOnly: counts the calls of this process, so it says nothing of a power loss that also takes records that were loaded without being fsynced; nor does `RaftFlaws.NewCheckpointExactly`.
- AofSteps.SyncsExactly: is about ticks and closes whose file calls all work; after one that does not the writer is gone or refuses writes.
- Delivery.DrainedExactly: quantifies over all choices of sets and deletes; for one given list of ops, an order of handling that is wrong in general may still end right.
