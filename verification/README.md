# Verified models of LevelDB, libuv and nanopb

The application stores its data in LevelDB, runs background work on libuv and exchanges messages
encoded by nanopb. This project models the parts whose correctness is hardest to see from the code
and proves what they are for.

**The store as a state machine.** `Lsm.dfy` has the memtables, seven levels of sorted files,
snapshots, the batch being written and the compaction under way; each step is a region the code
runs under its mutex. `LsmInvariant.dfy` proves that every step keeps the invariant and that reads
at snapshots never change. `VersionSet.dfy` (lookup), `CompactionPicker.dfy` (interval arithmetic
over files), `CompactionSemantics.dfy` and `CompactionWork.dfy` (what is dropped) supply the parts.
`Manifest.dfy`, `Recovery.dfy`, `RecoveryProof.dfy` and `RecoveryWork.dfy` add the manifest, the logs
and crashes. `DbImpl.dfy` has the class whose methods are the steps, over the vectors and counters the
code keeps.

**A finding.** `AddBoundaryInputs` is called for the upper level of a compaction only. When a user
key is split between an input of the output level and the next file there, dropping a deletion
marker can bring the deleted value back. `CompactionSemantics.CompactionPreservesReads` says exactly
when reads change. `Boundary.dfy` gives a run from an empty store after which they do, and a
condition on the files, checkable when the compaction is picked, under which they never do over
whole runs of the code as it is. The steps that install a compaction are stated under the exact
condition.

**What a crash may lose.** `Recovery.dfy` keeps every record; `LossyCrash.dfy` cuts the logs anywhere
behind their synced records and proves that what was synced is found, whole and not hidden by
anything older.

**Around the store.** `WriteQueue.dfy` is group commit, `Merger.dfy` and `DbIter.dfy` the
bidirectional cursors, `InternalIterator.dfy` what they run over, `MemTable.dfy` insertion,
`SkipList.dfy` the list it goes to, kept whole for readers at every pointer store. `Log.dfy` is the
fragmented log, for every file a crash may leave, and `LruCache.dfy` the cache of blocks and tables.

**Tables, down to bytes.** `Coding.dfy` has the encodings, `Comparator.dfy` the order of keys and the
separators, `Block.dfy` blocks with shared prefixes, `Filter.dfy` the bloom filters, `Table.dfy` the
builder and the lookup through index, filter and block, `TwoLevel.dfy` the cursor over a whole table.

**libuv.** `ThreadPool.dfy` is the thread pool as a concurrent protocol: two queues, the token for
slow work, the condition variable with spurious wakeups, cancellation and the loop's callbacks.
`Heap.dfy` is the heap of linked nodes addressed by the bits of a position, `Timer.dfy` the timers on
it.

**nanopb.** `Proto.dfy` has descriptor tables, the messages they describe and their encoding as a
function, `ProtoEncode.dfy` the encoder that sizes and then writes, `ProtoDecode.dfy` the decoder with
its substreams, and `ProtoRoundTrip.dfy` the proof that decoding undoes encoding for messages of any
depth.

User keys are integers where only their order matters: the comparator is supplied by the user and
any total order will do. Sequence numbers stay below 2^56 - 1, as the code's packing requires.
Ghost fields (`hist`, positions, groups) say what a state means and are not part of the state.

## Model

| member | source | states |
|---|---|---|
| `Format.BeforeLookupKey` | Spark/Pods/leveldb-library/db/dbformat.cc:51-67 | an internal key sorts before the lookup key of a read exactly when its user key is smaller or it is an entry of that key newer than the snapshot |
| `Format.VisibleOrHidden` | Spark/Pods/leveldb-library/db/memtable.cc:100-134 | of any stored set either nothing of a key is visible at a snapshot or there is a newest visible entry |
| `Format.ViewDependsOn` | Spark/Pods/leveldb-library/db/memtable.cc:100-134 | a read depends only on the entries of its key with a sequence number up to the snapshot |
| `VersionSet.FindFile` | Spark/Pods/leveldb-library/db/version_set.cc:88-106 | binary search returns the first file that ends at or after the key, with all files before it ending before the key and all others not |
| `VersionSet.SomeFileOverlapsRange` | Spark/Pods/leveldb-library/db/version_set.cc:122-156 | true if and only if some file holds a user key in the range, by scan or by binary search, absent bounds being unbounded |
| `VersionSet.TableGetVisible` | Spark/Pods/leveldb-library/db/version_set.cc:245-276 | what a seek in one sorted table saves is the newest visible entry of the key it holds, and nothing just when none is visible |
| `VersionSet.FilesToSearch` | Spark/Pods/leveldb-library/db/version_set.cc:334-380 | the files Get asks, in its order: of level zero those whose range holds the key newest first, of each deeper level the one candidate |
| `VersionSet.Get` | Spark/Pods/leveldb-library/db/version_set.cc:326-421 | the early-exit search returns what the newest entry visible at the snapshot among all entries of the version says |
| `CompactionPicker.GetOverlappingInputs` | Spark/Pods/leveldb-library/db/version_set.cc:519-559 | all files that meet the range; in level zero the range is the least one that contains the given range and that no file straddles |
| `CompactionPicker.FindSmallestBoundaryFile` | Spark/Pods/leveldb-library/db/version_set.cc:1344-1362 | the file with the smallest key among those that begin with the user key a given key ends with, after it |
| `CompactionPicker.AddBoundaryInputs` | Spark/Pods/leveldb-library/db/version_set.cc:1378-1401 | extends the inputs until no file left in the level begins with the user key they end with, keeping them contiguous and connected |
| `CompactionPicker.GetRange` | Spark/Pods/leveldb-library/db/version_set.cc:1205-1227 | the smallest and the largest internal key of the inputs |
| `CompactionPicker.SetupOtherInputs` | Spark/Pods/leveldb-library/db/version_set.cc:1403-1462 | the inputs are complete: nothing left in the upper level continues them, the lower ones are exactly the files that meet their hull, and their ranges leave no gap; also after the second expansion |
| `CompactionPicker.PickCompaction` | Spark/Pods/leveldb-library/db/version_set.cc:1270-1322 | every compaction picked, by size or by seeks, has complete inputs in the sense of SetupOtherInputs |
| `CompactionPicker.OverlapInLevel` | Spark/Pods/leveldb-library/db/version_set.cc:485-489 | true if and only if some file of the level holds a user key in the range |
| `CompactionPicker.PickLevelForMemTableOutput` | Spark/Pods/leveldb-library/db/version_set.cc:491-517 | a memtable goes below level zero only when its level and all shallower ones are clear of its range, and to at most level 2 |
| `CompactionSemantics.CompactionPreservesReads` | Spark/Pods/leveldb-library/db/db_impl.cc:920-1000 | dropping by rule (A) and dropping obsolete markers leave every read at every snapshot not older than the oldest in use unchanged, if and only if no dropped marker hides a value in a neighbouring file of the output level |
| `CompactionSemantics.ReadUncovered` | Spark/Pods/leveldb-library/db/db_impl.cc:957-975 | when a dropped marker does hide such a value the read at the oldest snapshot changes from nothing to that value |
| `Boundary.ClearBoundaryIsSafe` | Spark/Pods/leveldb-library/db/version_set.cc:1378-1426 | if no file of the output level outside the inputs begins with the user key an input there ends with, no marker uncovers anything |
| `Boundary.BoundaryStaysClear` | Spark/Pods/leveldb-library/db/db_impl.cc:906-918 | a boundary clear when the compaction is picked stays clear through every step until it is installed |
| `Boundary.ClearRunIsRun` | Spark/Pods/leveldb-library/db/version_set.cc:1403-1426 | runs that install compactions without looking at what they uncover, as the code does, are runs of the state machine as long as that condition holds whenever a compaction is picked |
| `Boundary.ClearSnapshotStability` | Spark/Pods/leveldb-library/db/db_impl.cc:1166-1175 | so reads at a snapshot in use never change in them |
| `Boundary.SplitReaches` | Spark/Pods/leveldb-library/db/version_set.cc:1403-1426 | a run from an empty store leads to a compaction for which the condition fails: a snapshot in use kept two versions of a key, which the outputs of an earlier compaction split |
| `Boundary.SplitKeyComesBack` | Spark/Pods/leveldb-library/db/version_set.cc:1403-1426 | when that compaction is installed as the code does, a deleted value is read again |
| `LsmInvariant.AddedJobOk` | Spark/Pods/leveldb-library/db/db_impl.cc:906-918 | a flush installed while a compaction runs leaves intact all the compaction relies on, at whatever level it lands |
| `LsmInvariant.PickedJobOk` | Spark/Pods/leveldb-library/db/version_set.cc:1403-1462 | complete inputs put the rest of the store where the compaction needs it |
| `LsmInvariant.StepKeeps` | Spark/Pods/leveldb-library/db/db_impl.cc:535-566 | every step of the store, from writes to compactions, keeps levels disjoint, newer entries shallower, numbers unique, snapshots ordered and all reads equal to the last write |
| `LsmInvariant.RunInv` | Spark/Pods/leveldb-library/db/db_impl.cc:1185-1256 | the invariant holds in every state of every run |
| `LsmInvariant.ReadsAreCorrect` | Spark/Pods/leveldb-library/db/db_impl.cc:1100-1145 | in every reachable state a read at the last sequence number or at a snapshot in use returns the last write of the key at or before it |
| `LsmInvariant.SnapshotStability` | Spark/Pods/leveldb-library/db/db_impl.cc:1166-1175 | while a snapshot is in use, reads at it return what they returned when it was taken |
| `LsmInvariant.SnapshotsSeeWholeBatches` | Spark/Pods/leveldb-library/db/db_impl.cc:1202-1237 | no snapshot exposes part of a batch |
| `CompactionWork.BaseLevelCursor.IsBaseLevelForKey` | Spark/Pods/leveldb-library/db/version_set.cc:1533-1552 | called with non-decreasing keys, the cursor that never moves back answers true exactly when no deeper file has the key in its range |
| `CompactionWork.DecideDrop` | Spark/Pods/leveldb-library/db/db_impl.cc:925-975 | one entry is dropped exactly when rule (A) or the marker rule says so, from what the loop remembers |
| `CompactionWork.DropAndCut` | Spark/Pods/leveldb-library/db/db_impl.cc:913-1000 | the outputs, cut anywhere, hold in order exactly the entries a compaction must keep |
| `CompactionWork.MergeInputs` | Spark/Pods/leveldb-library/db/version_set.cc:1237-1268 | the merged input of a compaction is the sorted sequence of exactly the entries of its files |
| `Merger.MergeAllSorted` | Spark/Pods/leveldb-library/table/merger.cc:20-41 | children without a shared key have one sorted union |
| `Merger.MergingIterator.SeekToFirst` | Spark/Pods/leveldb-library/table/merger.cc:31-37 | the cursor stands at the first entry of the union |
| `Merger.MergingIterator.SeekToLast` | Spark/Pods/leveldb-library/table/merger.cc:39-45 | the cursor stands at the last entry of the union |
| `Merger.MergingIterator.Seek` | Spark/Pods/leveldb-library/table/merger.cc:47-53 | the cursor stands at the first entry at or after the target |
| `Merger.MergingIterator.Next` | Spark/Pods/leveldb-library/table/merger.cc:55-79 | from either direction the cursor moves to the next entry of the union |
| `Merger.MergingIterator.Prev` | Spark/Pods/leveldb-library/table/merger.cc:81-107 | from either direction the cursor moves to the previous entry, and becomes invalid before the first |
| `DbIter.RowsAreReads` | Spark/Pods/leveldb-library/db/db_iter.cc:34-38 | a key has a row exactly when a read of it at the snapshot returns a value, and then the row holds that value |
| `DbIter.RowsSorted` | Spark/Pods/leveldb-library/db/db_iter.cc:34-38 | rows come in strictly increasing order of keys |
| `DbIter.DBIter.Key` | Spark/Pods/leveldb-library/db/db_iter.cc:64-67 | the key of the current row |
| `DbIter.DBIter.Val` | Spark/Pods/leveldb-library/db/db_iter.cc:68-71 | the value of the current row |
| `DbIter.DBIter.FindNextUserEntry` | Spark/Pods/leveldb-library/db/db_iter.cc:168-198 | the forward scan stops at the first row from where it starts, past overwritten, deleted and too new entries |
| `DbIter.DBIter.FindPrevUserEntry` | Spark/Pods/leveldb-library/db/db_iter.cc:227-267 | the reverse scan stops having read the last row before where it starts |
| `DbIter.DBIter.Next` | Spark/Pods/leveldb-library/db/db_iter.cc:141-166 | from either direction moves to the next row |
| `DbIter.DBIter.Prev` | Spark/Pods/leveldb-library/db/db_iter.cc:200-225 | from either direction moves to the previous row, and becomes invalid before the first |
| `DbIter.DBIter.Seek` | Spark/Pods/leveldb-library/db/db_iter.cc:269-281 | moves to the first row with a key at or after the target |
| `DbIter.DBIter.SeekToFirst` | Spark/Pods/leveldb-library/db/db_iter.cc:283-292 | moves to the first row |
| `DbIter.DBIter.SeekToLast` | Spark/Pods/leveldb-library/db/db_iter.cc:294-299 | moves to the last row |
| `InternalIterator.AddIterators` | Spark/Pods/leveldb-library/db/version_set.cc:230-247 | one child for each level-zero file and one for each other level together hold the version, without a shared key |
| `InternalIterator.NewInternalIterator` | Spark/Pods/leveldb-library/db/db_impl.cc:1062-1087 | a cursor over exactly the entries of memtables and version |
| `Manifest.OneBuilderForTwo` | Spark/Pods/leveldb-library/db/version_set.cc:650-693 | folding two edits through one builder gives what applying them one at a time gives, if and only if the second adds no number the first deleted from the level |
| `Manifest.ManifestRecovers` | Spark/Pods/leveldb-library/db/version_set.cc:924-992 | the whole manifest folded through one builder gives the version its edits made, as long as no number comes to a level twice |
| `Manifest.InsertFile` | Spark/Pods/leveldb-library/db/version_set.cc:592-605 | an added file goes to its place by smallest key and number |
| `Manifest.Builder.ApplyEdit` | Spark/Pods/leveldb-library/db/version_set.cc:650-693 | the builder notes deletions, then additions, which take their number off the deletions |
| `Manifest.SaveLevel` | Spark/Pods/leveldb-library/db/version_set.cc:695-737 | merging base and additions gives a sorted level with exactly the files not deleted |
| `Manifest.Builder.SaveTo` | Spark/Pods/leveldb-library/db/version_set.cc:695-737 | the new version has at each level exactly base and additions less deletions, sorted |
| `Recovery.NodeStepKeeps` | Spark/Pods/leveldb-library/db/db_impl.cc:535-566 | every step keeps manifest and logs in a state from which recovery finds everything: each step writes what recovery needs |
| `RecoveryProof.ReplaysLive` | Spark/Pods/leveldb-library/db/db_impl.cc:323-350 | the logs recovery selects are those of the two memtables, oldest first |
| `RecoveryProof.RecoveryKeeps` | Spark/Pods/leveldb-library/db/db_impl.cc:280-369 | recovery at any point of a run gives a store with the whole invariant, whose history is the published one extended by a batch whose record was complete |
| `RecoveryProof.NothingLost` | Spark/Pods/leveldb-library/db/db_impl.cc:280-369 | over runs with any number of crashes no published write is lost |
| `RecoveryProof.DurableReads` | Spark/Pods/leveldb-library/db/db_impl.cc:280-369 | over such runs every read returns the last write of its key |
| `RecoveryProof.QuietCrashKeepsReads` | Spark/Pods/leveldb-library/db/db_impl.cc:280-369 | a crash while nothing is written leaves the latest value of every key as it was |
| `MemTable.Add` | Spark/Pods/leveldb-library/db/memtable.cc:75-98 | an entry of a new sequence number goes to its place |
| `MemTable.InsertInto` | Spark/Pods/leveldb-library/db/write_batch.cc:115-137 | the operations of a batch go in under consecutive sequence numbers |
| `RecoveryWork.RecoverVersion` | Spark/Pods/leveldb-library/db/version_set.cc:886-1011 | one builder over all edits and the last of each counter; fails exactly when a counter is in no edit |
| `RecoveryWork.Replay.WriteLevel0Table` | Spark/Pods/leveldb-library/db/db_impl.cc:491-533 | without a version the table goes to level zero under a new number; an empty memtable leaves none |
| `RecoveryWork.Replay.MarkFileNumberUsed` | Spark/Pods/leveldb-library/db/version_set.cc:1044-1048 | later numbers are above every log number seen |
| `RecoveryWork.Replay.RecoverLogFile` | Spark/Pods/leveldb-library/db/db_impl.cc:371-489 | the tables made from a log hold exactly its operations, in order, wherever the memtable fills up |
| `RecoveryWork.SelectLogs` | Spark/Pods/leveldb-library/db/db_impl.cc:335-350 | the numbers not below the log number, sorted, from a directory in any order |
| `RecoveryWork.RecoverStore` | Spark/Pods/leveldb-library/db/db_impl.cc:280-369 | version, tables and last sequence number are those recovery must find |
| `DbImpl.DB.constructor` | Spark/Pods/leveldb-library/db/db_impl.cc:182-212 | a new store satisfies the invariant |
| `DbImpl.DB.Open` | Spark/Pods/leveldb-library/db/db_impl.cc:1474-1515 | opening what a crash left is recovery, and the history is there again |
| `DbImpl.DB.Get` | Spark/Pods/leveldb-library/db/db_impl.cc:1100-1145 | memtable, immutable memtable and version, stopping at the first that knows the key, return the last write at or before the snapshot |
| `DbImpl.DB.NewIterator` | Spark/Pods/leveldb-library/db/db_impl.cc:1147-1157 | a cursor whose rows are the keys with a value at the snapshot, each with the value the history says |
| `DbImpl.DB.GetSnapshot` | Spark/Pods/leveldb-library/db/db_impl.cc:1166-1169 | takes the last sequence number; a step of the store |
| `DbImpl.DB.ReleaseSnapshot` | Spark/Pods/leveldb-library/db/db_impl.cc:1171-1174 | a step of the store |
| `DbImpl.DB.Write` | Spark/Pods/leveldb-library/db/db_impl.cc:1205-1237 | logs, inserts and publishes a batch: the history grows by exactly its operations, all at once for readers |
| `DbImpl.DB.CommitGroup` | Spark/Pods/leveldb-library/db/db_impl.cc:1205-1237 | with the queue: the history is what the groups wrote, in order |
| `DbImpl.DB.SwitchMemtable` | Spark/Pods/leveldb-library/db/db_impl.cc:1345-1366 | new memtable and new log; a step of the store |
| `DbImpl.DB.LogAndApply` | Spark/Pods/leveldb-library/db/version_set.cc:801-884 | the current version becomes what the edit makes of it and the edit is in the manifest |
| `DbImpl.DB.WriteLevel0Table` | Spark/Pods/leveldb-library/db/db_impl.cc:491-533 | the table of the immutable memtable at a level it may go to |
| `DbImpl.DB.CompactMemTable` | Spark/Pods/leveldb-library/db/db_impl.cc:535-566 | a flush; a step of the store |
| `DbImpl.DB.StartCompaction` | Spark/Pods/leveldb-library/db/db_impl.cc:688-740 | picks a compaction or moves its only file down; a step of the store |
| `DbImpl.DB.MoveToNextLevel` | Spark/Pods/leveldb-library/db/db_impl.cc:713-731 | a trivial move; a step of the store |
| `DbImpl.DB.BuildOutputs` | Spark/Pods/leveldb-library/db/db_impl.cc:786-858 | the output tables under new numbers, disjoint and in order |
| `DbImpl.DB.InstallCompactionResults` | Spark/Pods/leveldb-library/db/db_impl.cc:860-876 | the outputs replace the inputs; a step of the store |
| `DbImpl.DB.DoCompactionWork` | Spark/Pods/leveldb-library/db/db_impl.cc:878-1050 | merge, drop, build and install keep the whole invariant |
| `WriteQueue.BuildBatchGroup` | Spark/Pods/leveldb-library/db/db_impl.cc:1260-1306 | the longest prefix of the queue that may be written together, and the concatenation of its batches |
| `WriteQueue.Queue.Arrive` | Spark/Pods/leveldb-library/db/db_impl.cc:1185-1195 | a writer queues up, taking charge when it is first |
| `WriteQueue.Queue.Wake` | Spark/Pods/leveldb-library/db/db_impl.cc:1193-1198 | a woken writer returns its answer, takes charge or waits on |
| `WriteQueue.Queue.StartGroup` | Spark/Pods/leveldb-library/db/db_impl.cc:1200-1214 | the front chooses its group; without room or batch it answers itself alone |
| `WriteQueue.Queue.EndGroup` | Spark/Pods/leveldb-library/db/db_impl.cc:1226-1256 | the group gets the next sequence numbers and each member its answer |
| `WriteQueue.Queue.Answer` | Spark/Pods/leveldb-library/db/db_impl.cc:1239-1253 | the members leave the queue with the status, signalled, and so is the new front |
| `WriteQueue.GroupOfWriter` | Spark/Pods/leveldb-library/db/db_impl.cc:1239-1248 | every writer answered is a member of a group at its place in the order of arrival |
| `WriteQueue.OneGroupOnly` | Spark/Pods/leveldb-library/db/db_impl.cc:1239-1248 | no writer is answered twice |
| `WriteQueue.ToldOk` | Spark/Pods/leveldb-library/db/db_impl.cc:1215-1225 | a writer told OK has its whole batch in the log record of its group, synced if it asked for that |
| `WriteQueue.WrittenInOrder` | Spark/Pods/leveldb-library/db/db_impl.cc:1260-1306 | when all groups succeed, what was written is the concatenation of the batches in the order the writers came |
| `Coding.DecodeEncode32` | Spark/Pods/leveldb-library/util/coding.h:60-72 | a fixed-width number is decoded to what was encoded |
| `Coding.UnmaskMask` | Spark/Pods/leveldb-library/util/crc32c.h:29-38 | unmasking undoes masking |
| `Log.Writer.AddRecord` | Spark/Pods/leveldb-library/db/log_writer.cc:34-80 | appends the fragments of the record, cut to blocks, wherever the file ends |
| `Log.Writer.EmitPhysicalRecord` | Spark/Pods/leveldb-library/db/log_writer.cc:82-108 | appends header and payload |
| `Log.Reader.ReadPhysicalRecord` | Spark/Pods/leveldb-library/db/log_reader.cc:189-271 | the next physical record of any file, with every case of bad bytes |
| `Log.Reader.ReadRecord` | Spark/Pods/leveldb-library/db/log_reader.cc:56-174 | the next record of any file, with the corruptions reported |
| `Log.PhysicalStored` | Spark/Pods/leveldb-library/db/log_reader.cc:189-271 | a fragment wholly in the file is read; one cut anywhere ends the file without a report |
| `Log.FragmentsRead` | Spark/Pods/leveldb-library/db/log_reader.cc:56-174 | the fragments of a record are put together again, or the file ends |
| `Log.TruncatedLog` | Spark/Pods/leveldb-library/db/log_reader.cc:56-271 | from any prefix of a log the reader returns exactly the records wholly in it, in order, and reports no corruption |
| `Log.ReadAll` | Spark/Pods/leveldb-library/db/db_impl.cc:412-453 | reading until the end gives all records of any file and the number of corruptions |
| `ThreadPool.Pool.constructor` | Spark/Pods/Libuv-gRPC/src/threadpool.c:188-232 | a new pool satisfies the invariant |
| `ThreadPool.Pool.Submit` | Spark/Pods/Libuv-gRPC/src/threadpool.c:142-160 | the request waits in its queue and, when a message was added, an idle worker is signalled |
| `ThreadPool.TakeWork` | Spark/Pods/Libuv-gRPC/src/threadpool.c:66-117 | the loop of a worker takes what the specification says: first work first, slow work under its limit, else work behind the token |
| `ThreadPool.Pool.NextWork` | Spark/Pods/Libuv-gRPC/src/threadpool.c:65-119 | the whole region a worker runs under the mutex keeps the invariant |
| `ThreadPool.Pool.FinishWork` | Spark/Pods/Libuv-gRPC/src/threadpool.c:121-129 | a finished request goes to the loop |
| `ThreadPool.Pool.SpuriousWakeup` | Spark/Pods/Libuv-gRPC/src/threadpool.c:76-76 | a wakeup without a signal is harmless |
| `ThreadPool.Pool.Unlink` | Spark/Pods/Libuv-gRPC/src/threadpool.c:269-283 | cancellation succeeds exactly when the work never ran |
| `ThreadPool.Pool.HandOver` | Spark/Pods/Libuv-gRPC/src/threadpool.c:285-291 | a cancelled request goes to the loop |
| `ThreadPool.Pool.TakeFinished` | Spark/Pods/Libuv-gRPC/src/threadpool.c:295-305 | the loop takes all finished requests |
| `ThreadPool.Pool.CallNext` | Spark/Pods/Libuv-gRPC/src/threadpool.c:307-314 | each is called back with 0 if its work ran and ECANCELED if not |
| `ThreadPool.TakeAwake` | Spark/Pods/Libuv-gRPC/src/threadpool.c:66-117 | a worker that takes the mutex leaves enough workers awake for what can be run |
| `ThreadPool.CalledOnce` | Spark/Pods/Libuv-gRPC/src/threadpool.c:295-315 | at most one callback for each request, with the right error |
| `ThreadPool.SomeoneAwake` | Spark/Pods/Libuv-gRPC/src/threadpool.c:66-117 | while work waits in either queue some worker is not asleep |
| `ThreadPool.SleepersAreNotNeeded` | Spark/Pods/Libuv-gRPC/src/threadpool.c:66-117 | a worker sleeps beside work that can be run only while others are on their way to the mutex |
| `ThreadPool.AllCalledBack` | Spark/Pods/Libuv-gRPC/src/threadpool.c:45-160 | when all workers sleep and the loop has nothing left, every request was called back |
| `SkipList.List.constructor` | Spark/Pods/leveldb-library/db/skiplist.h:324-334 | an empty list |
| `SkipList.List.Step` | Spark/Pods/leveldb-library/db/skiplist.h:264-281 | one load of a search, between any two stores of an insertion: when it ends, the two nodes are the neighbours of the key at that moment |
| `SkipList.List.SearchStays` | Spark/Pods/leveldb-library/db/skiplist.h:336-368 | what a search knows stays true through every store of an insertion |
| `SkipList.List.FindGreaterOrEqual` | Spark/Pods/leveldb-library/db/skiplist.h:260-281 | the first node at or after the key and, at every level, the node before it |
| `SkipList.List.FindLessThan` | Spark/Pods/leveldb-library/db/skiplist.h:283-302 | the last node before the key, or the head |
| `SkipList.List.FindLast` | Spark/Pods/leveldb-library/db/skiplist.h:304-322 | the last node, or the head |
| `SkipList.List.Contains` | Spark/Pods/leveldb-library/db/skiplist.h:370-378 | true if and only if the key is in the list |
| `SkipList.List.SetOwnNext` | Spark/Pods/leveldb-library/db/skiplist.h:365-365 | the store to the new node leaves every level a sorted sublist of the one below |
| `SkipList.List.Publish` | Spark/Pods/leveldb-library/db/skiplist.h:366-366 | so does the store that makes the node visible, which adds exactly it to the level |
| `SkipList.List.LinkAll` | Spark/Pods/leveldb-library/db/skiplist.h:362-367 | linking from the lowest level up keeps the list valid after every store |
| `SkipList.List.Insert` | Spark/Pods/leveldb-library/db/skiplist.h:336-368 | the keys gain exactly the new one, at its place |
| `SkipList.List.KeysIncrease` | Spark/Pods/leveldb-library/db/skiplist.h:260-281 | the keys are strictly increasing |
| `Heap.PathTo` | Spark/Pods/Libuv-gRPC/src/heap-inl.h:119-124 | the bits of the path to a position, in the order the walk takes them |
| `Heap.Heap.Walk` | Spark/Pods/Libuv-gRPC/src/heap-inl.h:126-136 | following the path leads to the pointer variable of the position |
| `Heap.Heap.Exchange` | Spark/Pods/Libuv-gRPC/src/heap-inl.h:72-104 | the pointer writes of a swap change exactly the links around the two nodes |
| `Heap.Heap.Swap` | Spark/Pods/Libuv-gRPC/src/heap-inl.h:72-104 | a node and its child change places in a complete tree whose links stay consistent |
| `Heap.Heap.Append` | Spark/Pods/Libuv-gRPC/src/heap-inl.h:115-141 | a new node is linked at the next free position |
| `Heap.Heap.Insert` | Spark/Pods/Libuv-gRPC/src/heap-inl.h:106-148 | the heap gains exactly the node, stays complete and in heap order |
| `Heap.Heap.DropLast` | Spark/Pods/Libuv-gRPC/src/heap-inl.h:163-185 | the node at the last position is unlinked |
| `Heap.Heap.Replace` | Spark/Pods/Libuv-gRPC/src/heap-inl.h:195-214 | the last node takes the place of the one removed |
| `Heap.Heap.Sink` | Spark/Pods/Libuv-gRPC/src/heap-inl.h:216-229 | a node sinks until none below comes before it |
| `Heap.Heap.Rise` | Spark/Pods/Libuv-gRPC/src/heap-inl.h:231-236 | a node rises until it does not come before the one above |
| `Heap.Heap.Remove` | Spark/Pods/Libuv-gRPC/src/heap-inl.h:150-237 | the heap loses exactly the node, wherever it stands, stays complete and in heap order |
| `Heap.FirstIsLeast` | Spark/Pods/Libuv-gRPC/src/heap-inl.h:33-36 | the root comes before all other nodes |
| `Timer.ClampedSum` | Spark/Pods/Libuv-gRPC/src/timer.c:78-80 | the sum of time and timeout, or the largest number if it wraps |
| `Timer.Loop.StartTimer` | Spark/Pods/Libuv-gRPC/src/timer.c:66-94 | the timer is in the heap under its clamped timeout and the next start number |
| `Timer.Loop.StopTimer` | Spark/Pods/Libuv-gRPC/src/timer.c:97-107 | the timer and only it leaves the heap |
| `Timer.Loop.TimerAgain` | Spark/Pods/Libuv-gRPC/src/timer.c:110-120 | a repeating timer is started anew, later than now |
| `Timer.Loop.NextTimeout` | Spark/Pods/Libuv-gRPC/src/timer.c:133-151 | the time until the earliest timer, 0 if one is due, -1 without timers |
| `Timer.Loop.FireNext` | Spark/Pods/Libuv-gRPC/src/timer.c:158-169 | the timer fired is due and comes before all that remain due |
| `Timer.Loop.RunTimers` | Spark/Pods/Libuv-gRPC/src/timer.c:154-171 | due timers fire in order of timeout and start, each once, and the loop ends; one due at first fires unless a callback stopped or restarted it |
| `Coding.PutVarint` | Spark/Pods/leveldb-library/util/coding.cc:47-96 | appends the number in groups of seven bits, the lowest first |
| `Coding.VarintRead` | Spark/Pods/leveldb-library/util/coding.cc:112-157 | what was written is read back, with the position after it, whatever follows |
| `Coding.GetVarint` | Spark/Pods/leveldb-library/util/coding.cc:112-157 | the loop over shifts reads what the recursive definition says, within the limit and the greatest number of bytes, cut to the width |
| `Block.BlockBuilder.Add` | Spark/Pods/leveldb-library/table/block_builder.cc:72-105 | the block holds one pair more; a shared prefix is one the key before has, and a restart point shares nothing |
| `Block.BlockBuilder.Finish` | Spark/Pods/leveldb-library/table/block_builder.cc:62-70 | the bytes hold all pairs added, each at its offset, with restart points and their number at the end |
| `Block.DecodeEntry` | Spark/Pods/leveldb-library/table/block.cc:54-74 | the fast and the general form read the same three lengths, and refuse entries past the limit |
| `Block.DecodeStored` | Spark/Pods/leveldb-library/table/block_builder.cc:94-104 | a stored entry decodes to its lengths |
| `Block.Iter.ParseNextKey` | Spark/Pods/leveldb-library/table/block.cc:224-250 | the entry after the last value, its key rebuilt from the key before, and the restart point of its stretch |
| `Block.Iter.Next` | Spark/Pods/leveldb-library/table/block.cc:137-140 | moves by exactly one |
| `Block.Iter.Prev` | Spark/Pods/leveldb-library/table/block.cc:142-161 | moves back by exactly one, from the restart point before the entry; invalid before the first |
| `Block.Iter.SeekToFirst` | Spark/Pods/leveldb-library/table/block.cc:203-206 | to the first pair |
| `Block.Iter.SeekToLast` | Spark/Pods/leveldb-library/table/block.cc:208-213 | to the last pair |
| `Block.Iter.FindRestart` | Spark/Pods/leveldb-library/table/block.cc:163-193 | binary search: everything before the restart point found is before the target |
| `Block.Iter.Seek` | Spark/Pods/leveldb-library/table/block.cc:163-201 | to the first pair whose key is not before the target |
| `Block.ReadBlock` | Spark/Pods/leveldb-library/table/block.cc:224-250 | reading a finished block from its first entry gives exactly the pairs added |
| `Comparator.BytesStrict` | Spark/Pods/leveldb-library/util/comparator.cc:25-27 | the order of bytes is a strict order in which what is neither before nor after is equal |
| `Comparator.FindShortestSeparator` | Spark/Pods/leveldb-library/util/comparator.cc:29-50 | a string from the first on and before the second; as short as the first byte that differs allows, and changed only when it leaves room |
| `Comparator.FindShortSuccessor` | Spark/Pods/leveldb-library/util/comparator.cc:52-64 | a string from the key on, shortened at its first byte that can grow |
| `Comparator.InternalStrict` | Spark/Pods/leveldb-library/db/dbformat.cc:51-67 | so is the order of internal keys |
| `Comparator.InternalSeparator` | Spark/Pods/leveldb-library/db/dbformat.cc:69-86 | an internal key from the first on and before the second, of a smaller user key than the second if it is not the first |
| `Comparator.InternalSuccessor` | Spark/Pods/leveldb-library/db/dbformat.cc:88-101 | an internal key from the given one on |
| `Filter.CreateFilter` | Spark/Pods/leveldb-library/util/bloom.cc:28-54 | a filter appended that every key given matches, and the bytes before stay |
| `Filter.BloomMayMatch` | Spark/Pods/leveldb-library/util/bloom.cc:56-81 | true if and only if all probes hit, or the number of probes is reserved |
| `Filter.FilterBlockBuilder.StartBlock` | Spark/Pods/leveldb-library/table/filter_block.cc:21-27 | as many filters as there are ranges before the offset; the keys so far are in theirs |
| `Filter.FilterBlockBuilder.GenerateFilter` | Spark/Pods/leveldb-library/table/filter_block.cc:51-75 | the keys that wait get the next filter and no earlier filter changes |
| `Filter.FilterBlockBuilder.Finish` | Spark/Pods/leveldb-library/table/filter_block.cc:35-49 | filters, offsets, where they begin and the base, in this order |
| `Filter.NoFalseNegatives` | Spark/Pods/leveldb-library/table/filter_block.cc:77-104 | every key in the filter of its range is a match for a reader of the finished block |
| `Table.DecodeHandle` | Spark/Pods/leveldb-library/table/format.cc:23-29 | reads back every handle that was encoded |
| `Table.ReadContents` | Spark/Pods/leveldb-library/table/format.cc:64-139 | reads back what was written at the handle, past the checksum |
| `Table.TableBuilder.Flush` | Spark/Pods/leveldb-library/table/table_builder.cc:125-139 | the block goes to the file and its index entry waits; the pairs added stay |
| `Table.TableBuilder.Add` | Spark/Pods/leveldb-library/table/table_builder.cc:94-123 | the table gains exactly the pair, and every separator lies between its block and the next key |
| `Table.TableBuilder.Finish` | Spark/Pods/leveldb-library/table/table_builder.cc:198-253 | the file holds exactly the pairs added, behind an index and filters that lead to each |
| `Table.EarlierBlocks` | Spark/Pods/leveldb-library/table/table.cc:216-244 | all blocks before the one the index leads to come before the target |
| `Table.LaterBlocks` | Spark/Pods/leveldb-library/db/dbformat.cc:69-86 | when that block ends before the target, later blocks have no entry of its user key: a separator that is not a last key was shortened to a smaller user key |
| `Table.FilteredOut` | Spark/Pods/leveldb-library/table/table.cc:226-230 | when the filter rules the key out there is nothing to find |
| `Table.Table.InternalGet` | Spark/Pods/leveldb-library/table/table.cc:216-244 | hands over an entry of the user key asked for if and only if the first entry at or after the target, of all added, is of it, and then that entry |
| `Table.IndexForIterator` | Spark/Pods/leveldb-library/table/table_builder.cc:101-109 | the index of a table is in order for the two-level iterator |
| `TwoLevel.TwoLevelIterator.SkipEmptyDataBlocksForward` | Spark/Pods/leveldb-library/table/two_level_iterator.cc:115-126 | from a block that is exhausted on to the first pair that follows |
| `TwoLevel.TwoLevelIterator.SkipEmptyDataBlocksBackward` | Spark/Pods/leveldb-library/table/two_level_iterator.cc:128-139 | back to the last pair before |
| `TwoLevel.TwoLevelIterator.Next` | Spark/Pods/leveldb-library/table/two_level_iterator.cc:103-107 | moves by exactly one over the pairs of all blocks |
| `TwoLevel.TwoLevelIterator.Prev` | Spark/Pods/leveldb-library/table/two_level_iterator.cc:109-113 | moves back by exactly one; invalid before the first |
| `TwoLevel.TwoLevelIterator.SeekToFirst` | Spark/Pods/leveldb-library/table/two_level_iterator.cc:89-94 | to the first of all pairs |
| `TwoLevel.TwoLevelIterator.SeekToLast` | Spark/Pods/leveldb-library/table/two_level_iterator.cc:96-101 | to the last of all pairs |
| `TwoLevel.TwoLevelIterator.Seek` | Spark/Pods/leveldb-library/table/two_level_iterator.cc:82-87 | to the first of all pairs whose key is not before the target |
| `LruCache.HandleTable.FindPointer` | Spark/Pods/leveldb-library/util/cache.cc:114-120 | the slot with hash and key, or the end of their bucket |
| `LruCache.HandleTable.Lookup` | Spark/Pods/leveldb-library/util/cache.cc:74-76 | the handle the name leads to, if any |
| `LruCache.HandleTable.Insert` | Spark/Pods/leveldb-library/util/cache.cc:78-92 | the name leads to the new handle and the one before is handed back; never more elements than buckets |
| `LruCache.HandleTable.Remove` | Spark/Pods/leveldb-library/util/cache.cc:94-102 | exactly the name is gone |
| `LruCache.HandleTable.Resize` | Spark/Pods/leveldb-library/util/cache.cc:122-146 | every name is found after it as before; the length is the least power of two from 4 on that holds all, and the count agrees |
| `LruCache.UnlinkRing` | Spark/Pods/leveldb-library/util/cache.cc:239-242 | the two stores of a removal leave the ring of the list without the element |
| `LruCache.AppendRing` | Spark/Pods/leveldb-library/util/cache.cc:244-250 | the four stores of an append leave the ring of the list with the element as the newest |
| `LruCache.RefCounts` | Spark/Pods/leveldb-library/util/cache.cc:217-223 | a client more keeps counts, lists and the sum of charges in agreement |
| `LruCache.UnrefCounts` | Spark/Pods/leveldb-library/util/cache.cc:225-237 | so does a reference less |
| `LruCache.Cache.Unref` | Spark/Pods/leveldb-library/util/cache.cc:225-237 | the deleter is called when neither clients nor the cache hold the handle; what only the cache holds becomes the newest of the unreferenced |
| `LruCache.Cache.FinishErase` | Spark/Pods/leveldb-library/util/cache.cc:305-316 | the handle is out of the cache and its charge of the usage; it lives on while clients hold it |
| `LruCache.Cache.Lookup` | Spark/Pods/leveldb-library/util/cache.cc:252-259 | the handle found has one client more and cannot be evicted |
| `LruCache.Cache.Release` | Spark/Pods/leveldb-library/util/cache.cc:261-264 | one client less |
| `LruCache.Cache.Insert` | Spark/Pods/leveldb-library/util/cache.cc:266-303 | the new handle is cached unless the capacity is zero, what had its name is taken out, and the oldest unreferenced are evicted, no more than it takes, until the usage fits or none is left |
| `LruCache.Cache.Erase` | Spark/Pods/leveldb-library/util/cache.cc:318-321 | the name leads nowhere and its handle is deleted unless a client holds it |
| `LruCache.Cache.Prune` | Spark/Pods/leveldb-library/util/cache.cc:323-333 | all that no client holds is evicted, oldest first, and nothing else |
| `LruCache.InsertedIsFound` | Spark/Pods/leveldb-library/util/cache.cc:266-303 | what was just inserted is found, whatever was evicted |
| `LruCache.Cache.OnOneList` | Spark/Pods/leveldb-library/util/cache.cc:28-38 | a cached handle is in the table and on exactly one list, that of the unreferenced just when no client holds it |
| `LruCache.Cache.DeletedOnce` | Spark/Pods/leveldb-library/util/cache.cc:225-237 | every handle ever made is held or its deleter was called, once |
| `LruCache.Cache.AllDeleted` | Spark/Pods/leveldb-library/util/cache.cc:323-333 | when no client holds anything and nothing is left to evict every deleter was called |
| `Proto.FieldIter.Next` | Spark/Pods/nanopb/pb_common.c:29-85 | one field on, wrapping at the end of the table, with the number of required fields passed |
| `Proto.FieldIter.Find` | Spark/Pods/nanopb/pb_common.c:87-104 | finds a field with the tag if there is one, wherever it starts, and otherwise stays |
| `ProtoEncode.OStream.Write` | Spark/Pods/nanopb/pb_encode.c:103-124 | fails just when the bytes do not fit; a stream that counts never fails |
| `ProtoEncode.EncodeVarint` | Spark/Pods/nanopb/pb_encode.c:608-628 | the loop that sets the top bits and clears the last one writes the varint |
| `ProtoEncode.EncodeSubmessage` | Spark/Pods/nanopb/pb_encode.c:717-765 | writes the length and the message if both fit; the sizing pass counts what the writing pass writes, so that the size changed is never reported |
| `ProtoEncode.PackedSize` | Spark/Pods/nanopb/pb_encode.c:169-189 | the size of a packed array by arithmetic or by encoding it without writing |
| `ProtoEncode.EncodeArray` | Spark/Pods/nanopb/pb_encode.c:147-236 | succeeds if and only if there is room and no more items than the array holds, and then writes them packed or each with its tag |
| `ProtoEncode.EncodeField` | Spark/Pods/nanopb/pb_encode.c:341-426 | writes a field that is present, and nothing for one that is absent |
| `ProtoEncode.EncodeMessage` | Spark/Pods/nanopb/pb_encode.c:528-550 | succeeds if and only if the message can be encoded and fits, whether it counts or writes, and then writes its encoding and nothing else |
| `ProtoDecode.DecodeVarint32` | Spark/Pods/nanopb/pb_decode.c:187-252 | reads as the definition over bytes says, with its checks for overflow and repeated signs |
| `ProtoDecode.DecodeVarint` | Spark/Pods/nanopb/pb_decode.c:255-275 | the same for 64 bits |
| `ProtoDecode.MakeSubstream` | Spark/Pods/nanopb/pb_decode.c:372-385 | the substream is the bytes of the length read, the parent what follows them |
| `ProtoDecode.DecodeValue` | Spark/Pods/nanopb/pb_decode.c:1334-1570 | each kind of value, cut to its memory or refused |
| `ProtoDecode.DecodeArray` | Spark/Pods/nanopb/pb_decode.c:424-464 | packed items from a substream up to the size of the array, or one item |
| `ProtoDecode.DecodeField` | Spark/Pods/nanopb/pb_decode.c:406-483 | presence, count or union tag and the value of a field |
| `ProtoDecode.CheckRequired` | Spark/Pods/nanopb/pb_decode.c:1039-1079 | true if and only if all required fields, of the first 64, were seen |
| `ProtoDecode.SetDefaults` | Spark/Pods/nanopb/pb_decode.c:845-928 | the loop over the fields sets the defaults at every depth |
| `ProtoDecode.DecodeMessage` | Spark/Pods/nanopb/pb_decode.c:934-1082 | the loop reads what the recursive definition says, and succeeds if and only if it does |
| `ProtoRoundTrip.Varint32Read` | Spark/Pods/nanopb/pb_decode.c:187-247 | a varint of 32 bits is read back in the middle of any input |
| `ProtoRoundTrip.WireBack` | Spark/Pods/nanopb/pb_decode.c:1345-1428 | integers of every size come back through two's complement or zigzag, and none is refused |
| `ProtoRoundTrip.ValueBack` | Spark/Pods/nanopb/pb_decode.c:1334-1570 | every value comes back and what follows it is left, at any depth of messages |
| `ProtoRoundTrip.TextExact` | Spark/Pods/nanopb/pb_decode.c:1487-1523 | a string comes back if and only if it ends within its memory |
| `ProtoRoundTrip.PackedBack` | Spark/Pods/nanopb/pb_decode.c:427-453 | a packed array comes back item by item |
| `ProtoRoundTrip.UnpackedBack` | Spark/Pods/nanopb/pb_decode.c:454-464 | so does one with a tag for each item, in as many rounds of the loop |
| `ProtoRoundTrip.OneBack` | Spark/Pods/nanopb/pb_decode.c:406-483 | a field with one value comes back in one round, a union with the member it held |
| `ProtoRoundTrip.ZeroSame` | Spark/Pods/nanopb/pb_encode.c:240-337 | a singular field that is skipped because it is zero is what the default gives |
| `ProtoRoundTrip.RoundTrip` | Spark/Pods/nanopb/pb_encode.c:528-550 | whatever memory is decoded into, decoding what was encoded gives the message back up to absent fields, and reads all of it |
| `Log.SyncedRecordsStay` | Spark/Pods/leveldb-library/db/log_reader.cc:56-170 | records whose bytes are all in the prefix, as those before a sync are, are among the ones read |
| `LossyCrash.LossyRecovery` | Spark/Pods/leveldb-library/db/db_impl.cc:314-489 | a crash that cuts the logs anywhere behind their synced records leaves sound levels with all tables and exactly the records kept, and a last sequence number that covers them |
| `LossyCrash.SyncedWriteSurvives` | Spark/Pods/leveldb-library/db/db_impl.cc:1215-1233 | in every reachable state, after such a crash, a write whose record was synced is in the store and a read of its key finds it or a newer write |
| `LossyCrash.ToldOkSurvives` | Spark/Pods/leveldb-library/db/db_impl.cc:1185-1256 | every operation of a writer that asked for a sync and was told OK is in the store after such a crash |
| `ProtoDecode.Decode` | Spark/Pods/nanopb/pb_decode.c:1084-1096 | the defaults, then the loop: what the definition says of any memory and input |
| `ProtoRoundTrip.Transmit` | Spark/Pods/nanopb/pb_encode.c:528-550 | encoding into a buffer and decoding from it brings the message through if and only if its encoding fits |

## Left out

- `DbImpl.DB.InstallCompactionResults`: requires that the compaction uncovers nothing, because without that the reads do change (see `Boundary.SplitKeyComesBack`); the code does not check it. `Boundary.ClearRunIsRun` is about runs that do not check it either.
- `DbImpl.DB.DoCompactionWork`: the same condition; flushes between its parts are steps of the state machine and not calls inside this method. The places where outputs are cut (`ShouldStopBefore`, the maximum file size) are arbitrary.
- `DbImpl.DB.StartCompaction`: level scores, compaction pointers and seek counts are parameters, so every choice they could make is covered.
- `DbImpl.DB.Open`: `reuse_logs` is off, the previous log number of old stores and the check for missing table files are not modelled; sizes of tables and the points where the memtable is full are parameters.
- `Manifest.Builder.ApplyEdit`: compaction pointers are not tracked.
- `RecoveryWork.RecoverStore`, with `RecoverLogFile` and `SelectLogs`: reuse of the last log, corrupt records, the previous log number and the check for missing table files are not modelled.
- `DbImpl.DB.LogAndApply`: write failures and the previous log number are not modelled.
- `DbImpl.DB.CommitGroup`: only a successful log write is described.
- `WriteQueue.Queue.EndGroup`: a failed log write uses up its sequence numbers as in the code; what the log then contains is not modelled.
- `Log.Reader.ReadRecord`: `initial_offset` is zero, so resyncing and record offsets are not modelled; appending to a torn log is not.
- `Log.Reader.ReadPhysicalRecord`: the same.
- `ThreadPool.Pool.Unlink`: cancelling after the callback, submitting a request again before it, shutdown, fork and several loops are not modelled; atomics and mutexes are sequentially consistent.
- Manual `CompactRange`: it can select files with gaps between them, and then a flush between them is not safe in the sense of `LsmInvariant.AddedJobOk`.
- `LossyCrash.SyncedWriteSurvives`: in `Recovery` logs are durable record by record; crashes that lose what was not synced are in `LossyCrash`, for one crash in any reachable state. What the history is after a loss, with writes missing in the middle, and runs that go on from there are not modelled.
- `SkipList.List.Insert`: loads and stores are sequentially consistent; the heights of nodes are parameters.
- `Heap.Heap.Insert`: the memory of nodes is a map from nodes to their three links.
- `Timer.Loop.RunTimers`: the loop's time stays below the largest 64-bit number, and callbacks start no timer that is already due, without which the loop need not end.
- `Timer.Loop.FireNext`: the same.
- `Block.Iter.Seek`, like all of `Block.Iter`: only blocks that were built are read, so the paths that report corruption inside a block are not taken.
- `Table.TableBuilder.Finish` and `Table.Table.InternalGet`: the metaindex block and the footer are not written; the reader is handed the handles. Tables are smaller than four gigabytes and have a filter; blocks come from the file each time.
- `Filter.CreateFilter`: the number of probes is a parameter from 1 to 30, to which the code clamps it.
- `Comparator.FindShortestSeparator`: that no shorter separator exists is not claimed, as it is not true.
- `LruCache.HandleTable.Insert`: the chains of a bucket are sequences, and the table has fewer than 2^31 elements.
- `LruCache.Cache.Insert`: charges add up below the width of `size_t`; sharding and the destruction of the cache are not modelled.
- `Proto.FieldIter.Next`: fields are addressed by their number; the offsets of the memory layout, which the generator of the tables supplies, are not modelled.
- `ProtoDecode.DecodeMessage`: callbacks, extensions, pointer fields and the release of what unions held are not modelled; the members of a union have memory of their own, of which only the chosen one's is read. The bits of required fields are a set, and a decoded message is only specified on success. A tag of zero in a message type without fields is skipped.
- `ProtoDecode.DecodeField`: the same memory of unions; the code zeroes it before it decodes a message into it, which matters to callbacks only.
- `ProtoDecode.DecodeVarint32`: forms of more than ten bytes are errors.
- `ProtoDecode.SetDefaults`: for an array of fixed size the code also zeroes the bytes where a count would be; the items are left as they were here.
- `ProtoRoundTrip.RoundTrip`: requires that singular fields have no default other than zero, that strings end within their memory (see `ProtoRoundTrip.TextExact`) and that unions hold one of their members; the encoding is shorter than four gigabytes.
- Input and output errors, file systems, statistics, info logging and repair.
- In the state machine the contents of a table are a sorted sequence of entries; `Table.dfy` shows how bytes hold them. Checksums are an arbitrary function of type and payload, hashes of keys too.
- Snapshots are a sequence in the order they were taken, and the pool's queues are sequences: the circular lists behind them are modelled in `LruCache.dfy` only.
- Key types other than a total order, comparators that change, and compression.
