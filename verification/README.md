# Verification of the LevelDB fork with a distributed value log

This project models the parts of the store whose correctness is hard to see and proves that each
of them agrees with something plain: a map, a sorted list, a list of records, a history of writes.
Everything is Dafny 4.11; `dafny verify dfyconfig.toml` checks all of it.

## What is modelled

**Levels and compaction** (`InternalKeys`, `Versions`, `VersionBuilder`, `InputSelection`,
`LayeredGet`, `CompactionLoop`, `CompactionReads`, `VersionSteps`, `StoreReads`, `DbRuns`, `DbSteps`,
`InputStream`, `Resurrection`, `NestedRuns`, `GapLost`, `MissedKeys`). A database is a memtable, an
immutable memtable and a version of seven levels of files. In `DbRuns`, writes, snapshots, rotations,
flushes, trivial moves and compactions are atomic steps. The level invariant holds in every run. A
compaction can resurrect a deleted key in the files, and memtables or newer files can hide that.
`DbRuns.RunsReadIff` says for every run that reads of live snapshots equal those of the plain history
of writes for as long as, and no longer than, no compaction leaves a resurrected key in sight. Two ways
to lose or regain data are real:

- The inputs at `level` are closed over files that share a boundary key, those at `level + 1` are
  not, so a deletion can be dropped while an older value of its key stays behind in the next file of
  `level + 1`. `Resurrection.DeletedKeyComesBack` is a run of fifteen steps from the empty database
  that ends there; `CompactionReads.ClosedParentsPreserve` shows that closing the `level + 1` inputs
  as well would exclude it.
- In `NestedRuns` a compaction takes time, and its loop flushes the immutable memtable in between.
  Compactions that the code picks by itself have inputs without gaps, and then nested flushes do no
  harm: each run is a run in which compactions happen at the moment they are installed. A manual
  compaction can have gaps between its inputs. A nested flush can put a file into such a gap at
  the output level, and an output that spans the gap then hides it from the binary search.
  `NestedRuns.NestedRunsInvIff` says exactly which runs keep the level invariant, with any number of
  nested flushes, and `NestedRuns.NestedRunsReadIff` which of these read like the history.
  `GapLost.WrittenKeyIsLost` is a run after which a written key is not found, and
  `MissedKeys.InstalledMissesIff` says which entries a lookup misses then: those on the way to which
  the bisection probes a file that overlaps theirs and sends it to the wrong side.

**Iterators** (`DbIter`, `MergingIterator`, `BlockCursor`). Each iterator class carries a ghost
cursor into a plain sorted list; every operation, in either direction and across direction
switches, moves the cursor as it would move on the list.

**The value log** (`VlogFrames`, `VlogFormat`, `Vlog`, `VlogReader`, `VlogRuns`). File and buffer
together are one log, every address handed out in a session lies wholly in one of the two and fetches
what was written, and a reader returns exactly the records wholly contained in any byte prefix of a
log file, at the offsets they were written at. After a crash at any step of a session, replaying what
is left of a vlog hands out again exactly the addresses of the batches wholly in it.

**Distributed garbage collection** (`GcProtocol`, `GcSteps`, `GcScan`, `GcRaces`). Client PUT, DELETE
and any number of collections interleave step by step. `GcProtocol.RunsRightIff` says for every run
that lookups through the master and the vlog are right for as long as, and no longer than, every step
meets its condition: a PUT is registered while its file exists, a key is not deleted between its
check and its update, a moved record's file still exists if the swap takes place, and a file is
removed when the master names no record of it. Requests that stay unanswered and rewrites that fail
are steps too. `GcRaces` has five runs that miss a condition. The slave's rule of collecting the oldest
file takes care of the moved records. Runs in which addresses enter the master before a scan passes
them, no checked key is deleted, no live record is skipped, and scans come to their end meet all
conditions.

**Formats and structures** (`Coding`, `LogFormat`, `LogReader`, `LogRoundTrip`, `Blocks`,
`BlockIterator`, `Separators`, `Bloom`, `FilterBlock`, `Table`, `TableBytes`, `TableWriter`,
`SkipList`, `InterleavedSearch`, `HandleTable`, `LruCache`, `GroupCommit`, `SpinLock`). Record log,
prefix-compressed blocks, tables with separators and filters, built and searched as bytes, the skip
list with the state after each link store and searches that interleave with the stores, the cache
shard, the writer queue and the spinning reader-writer lock.

Conventions. `SmallRuns` holds what the two concrete runs share, `RunLogic` the induction of the
run theorems that say "as long as, and no longer than". The LSM modules take user keys to
be reals because only their order matters; `Bytes.RankOrder` embeds byte strings under the bytewise
comparator into the reals. Comparators of blocks are given in the same way, as an order `ord` of the
keys. Checksums, hash functions and filter policies are arbitrary functions passed as parameters. A
file is the sequence of its bytes, and reads are short only at its end. Choices the code leaves to
size limits, random numbers or timing (where outputs are cut, how high a skip-list node is, when a
block is full) are parameters or unconstrained steps.

Where code and comment disagree, the model follows the code. The comment above the removal of a
collected vlog (`distributed/slave.cc:916-917`) says all live records have been moved by then, but
the file is removed whenever one record was read (`distributed/slave.cc:918`), also after a scan that
was broken off; and UPDATE_ADDR is described as a compare-and-swap (`distributed/master.cc:409-413`)
but stores without comparing when the key is absent (`distributed/master.cc:425-448`).

## Model

| member | source | states |
|---|---|---|
| Bytes.RankOrder | util/comparator.cc:27-29 | the bytewise comparator orders strings exactly as their ranks, so user keys can be reals |
| InternalKeys.SeekKeyOrder | db/dbformat.cc:117-135 | what sorts before the lookup key: smaller user keys, and entries of the same user key too new for the snapshot; nothing else |
| InternalKeys.NewestExists | db/dbformat.cc:47-63 | a key with a visible entry has a newest visible one |
| InternalKeys.ReadsFunctional | db/dbformat.cc:47-63 | a read of distinct entries has one answer |
| Versions.EntryBounds | db/version_edit.h:17-26 | every entry of a file lies between its smallest and largest key |
| Versions.VersionKeysDistinct | db/version_set.cc:673-716 | under the level invariant entries are told apart by user key and sequence number |
| VersionBuilder.SaveLevel | db/version_set.cc:673-731 | merging base and added files in key order, minus deleted numbers; a number added again is not deleted, and new numbers give the edited level in strict order |
| InputSelection.GetOverlappingInputs | db/version_set.cc:499-539 | the files that meet the range; at level 0 the least range around it that cuts through no file, and the restarting loop ends |
| InputSelection.GetRange | db/version_set.cc:1219-1238 | the least smallest and the greatest largest key of the inputs |
| InputSelection.FindSmallestBoundaryFile | db/version_set.cc:1358-1376 | the smallest later file that opens with the user key the inputs end on, if any |
| InputSelection.AddBoundaryInputs | db/version_set.cc:1392-1415 | no later file of the level shares the last user key afterwards; only such files are added |
| InputSelection.SetupOtherInputs | db/version_set.cc:1417-1461 | inputs are closed at the level, parents are all overlapping files of the next level, and the inputs are widened exactly if that adds files, fits the size limit and leaves the parents as they are |
| InputSelection.ParentInputs | db/version_set.cc:1422-1425 | the parents are exactly the files of the next level overlapping the inputs |
| InputSelection.ExpandInputs | db/version_set.cc:1428-1436 | the wider inputs contain the old ones and every file in the range of inputs and parents, and are closed |
| InputSelection.SameParents | db/version_set.cc:1443-1448 | equally many parents over a wider range are the same parents |
| InputSelection.PickCompaction | db/version_set.cc:1284-1336 | the picked file is the sought one or the next behind the compaction pointer, wrapping around; the inputs contain it, satisfy the input conditions and leave no gap in their range |
| InputSelection.CompactRange | db/version_set.cc:1478-1509 | none exactly if nothing overlaps; otherwise closed inputs around all overlapping files at level 0, and below it around the first overlapping ones, as many as reach the size limit |
| InputSelection.BoundaryClosed | db/version_set.cc:1392-1415 | with no boundary file left, no file left behind at the level holds an older entry of a user key of the inputs |
| InputSelection.InputsOkHold | db/version_set.cc:1417-1461 | files left behind are newer than the chosen inputs |
| InputSelection.SelectionReaches | db/version_set.cc:499-539 | beyond the requested range, what the restarting search selects covers its range without a gap |
| LayeredGet.FindFile | db/version_set.cc:88-106 | the bisection; in a sorted level it is the first file whose largest key is at or after the key |
| LayeredGet.SomeFileOverlapsRange | db/version_set.cc:122-157 | true exactly if some file of the level overlaps the user-key range, disjoint files or not |
| LayeredGet.OverlapInLevel | db/version_set.cc:465-469 | the same for one level of a version |
| LayeredGet.PickLevelForMemTableOutput | db/version_set.cc:471-496 | a flush goes as deep as nothing overlaps it and not too much lies two levels below, but not below level 2 |
| LayeredGet.SearchLevelZero | db/version_set.cc:286-303 | probing level-0 files newest first decides as their union does |
| LayeredGet.SearchSortedLevel | db/version_set.cc:305-322 | one binary-searched file decides for a whole level |
| LayeredGet.OneFileSuffices | db/version_set.cc:305-322 | even when a user key spans adjacent files, only the found file matters |
| LayeredGet.SearchVersion | db/version_set.cc:282-401 | the level-by-level search returns the newest visible entry over all levels |
| LayeredGet.Get | db/db_impl.cc:1113-1160 | memtable, immutable memtable and levels in turn answer the read over the union of all entries |
| CompactionLoop.KeptMember | db/db_impl.cc:942-1009 | what survives the loop are the entries the drop rule spares |
| CompactionLoop.KeptSorted | db/db_impl.cc:942-1009 | the survivors stay sorted |
| CompactionLoop.Compaction.IsBaseLevelForKey | db/version_set.cc:1547-1566 | with cursors that only advance, true exactly if no file at level + 2 or deeper has the key in its range |
| CompactionLoop.ShouldDrop | db/db_impl.cc:949-976 | the stateful rule drops exactly the hidden entries and the obsolete deletions |
| CompactionLoop.DoCompactionWork | db/db_impl.cc:913-1012 | however the outputs are cut, together they are the surviving entries in order, none empty |
| CompactionReads.ReadsPreservedIff | db/db_impl.cc:902-1012 | a compaction keeps every read from the smallest snapshot up if and only if it resurrects no key |
| CompactionReads.ComesBack | db/db_impl.cc:962-973 | with resurrection, a key that read as deleted reads as its old value |
| CompactionReads.ClosedParentsPreserve | db/version_set.cc:1421-1425 | if the level + 1 inputs were closed over boundary files too, reads would be preserved |
| CompactionReads.ObsoleteGone | db/version_set.cc:1547-1566 | an older entry that is still there after its obsolete deletion was dropped was not among the inputs |
| VersionSteps.CompactionKeepsInv | db/db_impl.cc:872-888 | installing a compaction keeps the level invariant |
| VersionSteps.InstalledInvIff | db/db_impl.cc:872-888 | installing outputs keeps the version invariant if and only if they keep apart from the files of the level that are left out |
| VersionSteps.CompactedEntries | db/db_impl.cc:872-888 | the new version holds what was kept and everything not among the inputs |
| VersionSteps.CutIsSorted | db/db_impl.cc:987-1009 | outputs cut from the survivors are sorted and disjoint files |
| VersionSteps.MoveKeepsInv | db/db_impl.cc:730-737 | a trivial move keeps the level invariant |
| VersionSteps.MovedEntries | db/db_impl.cc:730-737 | a trivial move changes no entry |
| VersionSteps.FlushKeepsInv | db/db_impl.cc:503-545 | a flush to the picked level keeps the level invariant |
| VersionSteps.FlushedEntries | db/db_impl.cc:503-545 | a flush adds exactly the memtable's entries |
| DbRuns.NextKeepsDbInv | db/db_impl.cc:700-770 | every step keeps levels sorted, level 0 ordered by number, shallower levels newer |
| StoreReads.TopReadsIff | db/db_impl.cc:902-1012 | with newer entries on top of the files, a compaction keeps every read of the whole store if and only if no resurrected key is left in sight |
| DbRuns.CompactReadsIff | db/db_impl.cc:902-1012 | a compaction step keeps reads of the store equal to the history if and only if no resurrected key is left in sight of the memtables |
| DbRuns.NextReadsIff | db/db_impl.cc:1113-1160 | so for every step; all others keep reads equal to the history |
| DbRuns.RunsKeepLevels | db/version_set.cc:1284-1476 | the level invariant holds after every run from the empty database |
| DbRuns.RunsReadIff | db/db_impl.cc:1113-1160 | in every run the store reads like the plain history of writes up to a point if and only if no compaction up to it leaves a resurrected key in sight |
| DbRuns.RunsReadHistory | db/db_impl.cc:1113-1160 | so in particular after every run whose compactions resurrect nothing |
| DbRuns.Lookup | db/db_impl.cc:1113-1160 | in a reachable state Get answers the read of the stored entries, and of the history where those agree |
| DbSteps.CompactMemTable | db/db_impl.cc:503-578 | flushing the immutable memtable is the flush step |
| DbSteps.TrivialMove | db/db_impl.cc:730-737 | moving one file with no parent is the move step |
| DbSteps.CompactFiles | db/db_impl.cc:890-1049 | merging the inputs, dropping, cutting and installing is the compaction step, however outputs are cut |
| InputStream.UnionIsMerged | db/version_set.cc:1251-1282 | level-0 files one by one and deeper levels end to end are children the merging iterator can merge, and their union is every input entry once, in order |
| InputStream.MergeInputs | db/version_set.cc:1251-1282 | a pass over the input iterator yields that union |
| DbSteps.InstallCompactionResults | db/db_impl.cc:872-888 | the edit removes the inputs and adds the outputs at level + 1 |
| Resurrection.DeletedKeyComesBack | db/version_set.cc:1421-1425 | a run from the empty database, with flush levels, inputs and snapshots as the code has them and no single file merged that it would move, after which a deleted key reads as its old value |
| NestedRuns.InstallIsCompact | db/db_impl.cc:872-888 | installing outputs computed against an older version is the compaction step of the current one |
| NestedRuns.NestedKeepsInv | db/db_impl.cc:919-931 | every step, also during a compaction, keeps the level invariant and leaves the running compaction its inputs |
| NestedRuns.NestedRunsKeepLevels | db/db_impl.cc:919-931 | the level invariant holds throughout every run whose nested flushes stay clear of the inputs |
| NestedRuns.NoRoomBetween | db/version_set.cc:471-496 | no memtable is sent to the output level between inputs without gaps |
| NestedRuns.PickedRunsAreClear | db/version_set.cc:1284-1336 | with compactions the code picks by itself, every run is clear |
| NestedRuns.InstallRightIff | db/db_impl.cc:872-888 | after any number of nested flushes, installing keeps the level invariant if and only if no output spans a file flushed to its level meanwhile |
| NestedRuns.NestedRunsInvIff | db/db_impl.cc:919-931 | every run, manual compactions included, keeps the level invariant for as long as and no longer than no installed output spans a file flushed meanwhile |
| NestedRuns.InstallReadsIff | db/db_impl.cc:872-888 | whatever was flushed meanwhile, an installation keeps reads equal to the history if and only if no key its compaction resurrects is left in sight of memtables and flushed files |
| NestedRuns.NestedRunsReadIff | db/db_impl.cc:919-931 | while the level invariant holds, the store reads like the history of writes for as long as and no longer than that is so of every installation |
| NestedRuns.NestedRunsReadHistory | db/db_impl.cc:919-931 | so in particular while nothing is resurrected |
| GapLost.WrittenKeyIsLost | db/db_impl.cc:920-931 | a run with a manual compaction of all keys within the size limit, flush levels as the code picks them, after which a written key is not found |
| MissedKeys.BisectEndsIff | db/version_set.cc:88-107 | whatever the order of the files, the bisection ends at the right one if and only if it probes none that stands before it and does not end before the key, or behind it and does |
| MissedKeys.MissedIff | db/version_set.cc:307-321 | so a lookup misses the newest entry a level has of a key if and only if the bisection probes such a file |
| MissedKeys.NothingFoundIff | db/version_set.cc:307-321 | and finds nothing at all of a key that one file of the level has, in exactly that case |
| MissedKeys.InstalledMissesIff | db/version_set.cc:307-321 | after an installation, too, and then one of the two files is an output and the other was flushed while the compaction ran |
| DbIter.ShownIsRead | db/db_iter.cc:402-432 | the iterator's list holds exactly the pairs point reads at the snapshot would give |
| DbIter.DBAddrIter.SeekToFirst | db/db_iter.cc:517-526 | the cursor is on the first shown pair |
| DbIter.DBAddrIter.SeekToLast | db/db_iter.cc:528-533 | the cursor is on the last shown pair |
| DbIter.DBAddrIter.Seek | db/db_iter.cc:503-515 | the cursor is on the first shown pair at or after the target |
| DbIter.DBAddrIter.Next | db/db_iter.cc:366-400 | the cursor moves forward by one, from either direction |
| DbIter.DBAddrIter.Prev | db/db_iter.cc:434-459 | the cursor moves back by one, from either direction |
| DbIter.DBAddrIter.FindNextUserEntry | db/db_iter.cc:402-432 | stops at the first shown entry that is not to be skipped |
| DbIter.DBAddrIter.FindPrevUserEntry | db/db_iter.cc:461-501 | saves the last shown entry at or before the position and stops behind it |
| MergingIterator.UnionIsSorted | table/merger.cc:148-176 | the reference list is the sorted union of the children |
| MergingIterator.Merging.SeekToFirst | table/merger.cc:31-37 | the cursor is at the start of the union |
| MergingIterator.Merging.SeekToLast | table/merger.cc:39-45 | the cursor is at its end |
| MergingIterator.Merging.Seek | table/merger.cc:47-53 | the cursor is on the first key of the union at or after the target |
| MergingIterator.Merging.Next | table/merger.cc:55-79 | the cursor moves forward by one, repositioning the other children after a reversal |
| MergingIterator.Merging.Prev | table/merger.cc:81-108 | the cursor moves back by one, repositioning the other children after a reversal |
| MergingIterator.Merging.FindSmallest | table/merger.cc:148-161 | the child with the smallest key |
| MergingIterator.Merging.FindLargest | table/merger.cc:163-176 | the child with the largest key |
| Coding.VarintRoundTrip | util/coding.cc:55-131 | decoding what was encoded gives the value back and stops right behind it, whatever follows |
| Coding.EncodeVarint | util/coding.cc:55-64 | the loop writes the varint |
| Coding.GetVarint | util/coding.cc:86-131 | the shift loop decodes a varint within the byte limit, or fails |
| Coding.FixedRoundTrip | util/coding.h:61-117 | fixed-width integers round-trip |
| Coding.DecodeFixed | util/coding.h:95-117 | the decoder computes the little-endian value |
| Coding.PrefixedRoundTrip | util/coding.cc:72-75 | a length-prefixed string reads back whatever follows it |
| VlogFormat.GetLengthPrefixed | util/coding.cc:155-164 | the string behind its length, or failure if it is cut short |
| VlogFormat.OpRoundTrip | db/write_batch.cc:58-71 | an operation of a batch reads back and ends where it was written |
| VlogFormat.OpsRoundTrip | db/write_batch.cc:44-82 | a batch iterates to the operations put into it |
| VlogFormat.ReadOp | db/write_batch.cc:98-137 | tag and slices of the next operation, or corruption |
| VlogFormat.IterateAddresses | db/write_batch.cc:84-143 | the head ends right behind the batch, each put gets its place; corruption exactly for malformed batches or a wrong count, after the operations before the unreadable place have been handed on |
| VlogFormat.AddressesName | db/write_batch.cc:103-120 | the address of a put names exactly the bytes of that put |
| VlogFormat.AddrRoundTrip | db/vlog_manager.cc:53-60 | an address that was handed out decodes to itself |
| VlogFormat.DecodeAddr | db/vlog_manager.cc:53-60 | three varints, or corruption |
| VlogFrames.FrameRoundTrip | db/vlog_writer.cc:24-31 | a complete frame reads back, whatever follows it |
| VlogFrames.TornFrame | db/vlog_reader.cc:77-91 | a frame cut anywhere does not read as a frame |
| VlogFrames.FramesOfPrefix | db/vlog_reader.cc:39-144 | a byte prefix of a log holds exactly the records wholly contained in it |
| VlogFrames.WholeLog | db/vlog_reader.cc:39-144 | an uncut log gives back all its records |
| Vlog.VlogInfo.AddRecord | db/vlog_writer.cc:24-63 | the log grows by exactly the frame, the frame lies in one part, nothing earlier is torn |
| Vlog.VlogInfo.FlushBuffer | db/vlog_manager.cc:106-115 | the buffer's bytes move to the file and the log stays the same |
| Vlog.VlogInfo.ReadAt | db/vlog_fetcher.cc:36-55 | bytes at or behind head come from the buffer, others from the file; both are the log's |
| Vlog.VlogInfo.Get | db/vlog_fetcher.cc:11-62 | a held put yields its value |
| Vlog.BatchStep | db/db_impl.cc:1329-1349 | after a batch is appended all its puts are held at the addresses handed out, and all earlier ones still are |
| Vlog.NextKeepsInv | db/db_impl.cc:1439-1450 | writes, rollovers and flushes keep vlog_head_ at head_ + size_ and every issued address readable |
| Vlog.RunsHoldValues | db/db_impl.cc:1329-1349 | so in every reachable state of a session |
| Vlog.WrittenStaysReadable | db/vlog_manager.cc:51-71 | each put of a written batch is readable at its address ever after |
| Vlog.WrittenAsFrames | db/db_impl.cc:443-457 | the addresses handed out at write time are those a replay from head 0 computes |
| VlogReader.VReader.Refill | db/vlog_reader.cc:43-69 | leftover bytes move to the front and no byte is lost or repeated |
| VlogReader.VReader.TakeBody | db/vlog_reader.cc:77-133 | a record comes out whole, from the buffer, by a direct read or from one more block |
| VlogReader.VReader.ReadRecord | db/vlog_reader.cc:39-144 | the next complete frame with a fitting checksum, or nothing |
| VlogReader.ReadAll | distributed/slave.cc:826-840 | a pass finds all frames and its running offsets are those of the payloads |
| VlogReader.ReadCutLog | db/vlog_reader.cc:39-144 | on any byte prefix exactly the contained records, each at the offset it was written at |
| VlogReader.Recover | db/db_impl.cc:443-457 | replaying any byte prefix of a log from head 0 hands out, for exactly the batches wholly in it, the addresses of the time of writing |
| VlogRuns.RunsWriteFrames | db/db_impl.cc:1329-1349 | in every reachable session each vlog consists of the frames of the batches written to it, and every address handed out is the one a replay computes |
| VlogRuns.RecoverSession | db/db_impl.cc:443-457 | so after a crash at any step that leaves any prefix of a vlog, recovery hands out the session's addresses for exactly the batches in it |
| GcProtocol.AddressInjective | distributed/slave.cc:379-395 | within a file an address names one record |
| GcProtocol.NextKeepsWeak | distributed/slave.cc:359-401 | whatever goes wrong, an address that was handed out leads to its record as long as its file exists |
| GcProtocol.StepRightIff | distributed/slave.cc:804-924 | from right lookups, a step leads to right lookups if and only if it meets its condition |
| GcProtocol.RunsRightIff | distributed/slave.cc:804-924 | in every run, lookups are right up to a point if and only if every step up to it meets its condition |
| GcProtocol.FetchRightIff | distributed/master.cc:253-288 | a GET in two steps fetches the value the key had at the first, if and only if the file is not removed in between |
| GcProtocol.OldestUpdateIff | distributed/slave.cc:972-976 | with the oldest file collected first, as the slave does, UPDATE_ADDR is right if and only if the key has not been deleted |
| GcProtocol.OwnerIsKey | distributed/slave.cc:857-864 | only a record's own key can have its address in the master |
| GcProtocol.NextKeepsInv | distributed/slave.cc:804-924 | every timely step of clients and collectors keeps lookups right and passed records unnamed |
| GcProtocol.RunsKeepInv | distributed/slave.cc:359-401 | so in every timely run |
| GcProtocol.RunsLookUpRight | distributed/master.cc:414-460 | where addresses enter the master before a scan passes them and scans are completed, lookups give the last registered PUT and a scanned file is named by no address |
| GcProtocol.ScannedFileUnnamed | distributed/slave.cc:916-921 | after a complete scan no master address names the file |
| GcProtocol.UpdateRightIff | distributed/master.cc:425-448 | UPDATE_ADDR is right if and only if the key has not been deleted and, if the swap takes place, the new address is in a file that exists |
| GcProtocol.EndRightIff | distributed/slave.cc:918-921 | ending a scan is right if and only if no record it has not come to has its own address in the master |
| GcProtocol.RemoveRightIff | distributed/slave.cc:918-921 | removing a file is right if and only if the master names no record of it, however that came about |
| GcProtocol.RegisterRightIff | distributed/master.cc:218-248 | registering a PUT is right if and only if its file has not been collected meanwhile |
| GcRaces.DeletedKeyReturns | distributed/master.cc:425-448 | a run, right up to its last step, in which a deleted key is back without a PUT |
| GcRaces.PendingPutIsLost | distributed/slave.cc:918-921 | a run, right up to its last step, in which a registered PUT names a file that is gone |
| GcRaces.PassedPutIsLost | distributed/slave.cc:916-921 | a run, right up to its last step, in which a complete scan passed a record before its PUT was registered |
| GcRaces.SkippedRecordIsLost | distributed/slave.cc:852-853 | a run, right up to its last step, in which a complete scan skipped a live record because a request stayed unanswered |
| GcRaces.BrokenScanLosesKey | distributed/slave.cc:916-921 | a run, right up to its last step, in which a scan broken off before a live record loses it |
| GcScan.ScanFindsAddresses | distributed/slave.cc:826-840 | the scan recomputes exactly the addresses issued at write time |
| GcScan.AddressFetchesValue | distributed/slave.cc:323-344 | fetching an issued address from the file and parsing it yields the record's value |
| GcSteps.Cluster.WriteValue | distributed/slave.cc:359-401 | appends with rollover and returns the record's address |
| GcSteps.Cluster.Put | distributed/master.cc:218-248 | a client PUT makes its value the one looked up |
| GcSteps.Cluster.Get | distributed/master.cc:253-288 | GET returns the value of the last registered PUT, or nothing |
| GcSteps.Cluster.Delete | distributed/master.cc:292-311 | DELETE forgets the key |
| GcSteps.Cluster.CollectRecord | distributed/slave.cc:842-898 | check, rewrite and update of one record keep the protocol invariant |
| GcSteps.Cluster.ExecuteGc | distributed/slave.cc:804-924 | an uninterrupted collection loses nothing and leaves no address in the file, whatever is pending; the file goes exactly if it held a record |
| LogFormat.FragmentsFit | db/log_writer.cc:44-79 | no fragment crosses a block |
| LogFormat.BlockBoundary | db/log_writer.cc:27-30 | a writer reopened at a block boundary continues as if it had not stopped |
| LogFormat.Writer.EmitPhysicalRecord | db/log_writer.cc:82-108 | header and payload of one fragment |
| LogFormat.Writer.AddRecord | db/log_writer.cc:34-80 | the loop writes the record's fragments, trailers included |
| LogReader.Reader.ReadPhysicalRecord | db/log_reader.cc:189-271 | next fragment, end of file or bad record, with the corruptions reported, for any bytes |
| LogReader.Reader.ReadRecord | db/log_reader.cc:56-174 | puts fragments together as the specification does, for any bytes |
| LogRoundTrip.ReadPhysMatches | db/log_reader.cc:189-271 | on a cut log: the next fragment if it is there completely, the end of the file otherwise, no report |
| LogRoundTrip.ReadRecordMatches | db/log_reader.cc:71-172 | on a cut log: the next record if all its fragments are there, nothing otherwise, no report |
| LogRoundTrip.ReadsBackPrefix | db/log_reader.cc:56-174 | any byte prefix yields exactly the records wholly contained in it, and no corruption is reported |
| LogRoundTrip.ReadsBackAll | db/log_reader.cc:56-174 | an uncut log yields what was written |
| LogRoundTrip.AppendAll | db/log_writer.cc:27-80 | a writer opened on a log of any length continues it |
| LogRoundTrip.ReadAll | db/log_reader.cc:56-174 | the read loop computes the specified pass |
| Blocks.BlockBuilder.Add | table/block_builder.cc:71-105 | one more entry, its shared prefix really shared, restart points sharing nothing |
| Blocks.BlockBuilder.SharedWithLast | table/block_builder.cc:79-83 | the longest common prefix with the last key |
| Blocks.BlockBuilder.Finish | table/block_builder.cc:61-69 | entries, restart offsets and their number |
| BlockIterator.DecodeEntry | table/block.cc:55-75 | the three lengths, by the fast path or varint by varint, or failure |
| BlockIterator.EntryDecodes | table/block.cc:55-75 | a written entry decodes to its parts, whatever follows it |
| BlockIterator.RestartPoint | table/block.cc:100-103 | the restart array reads back |
| BlockCursor.Iter.ParseNextKey | table/block.cc:250-277 | on a well-formed block moves onto the next entry with its full key and restart index, or to the end |
| BlockCursor.Iter.SeekToFirst | table/block.cc:229-232 | the cursor is on the first entry |
| BlockCursor.Iter.SeekToLast | table/block.cc:234-239 | the cursor is on the last entry |
| BlockCursor.Iter.Next | table/block.cc:138-141 | the cursor moves forward by one |
| BlockCursor.Iter.Prev | table/block.cc:143-162 | the cursor moves back by one, or to the end from the first entry |
| BlockCursor.Iter.SearchRestarts | table/block.cc:187-208 | the binary search ends on a restart point before the target or where it began |
| BlockCursor.Iter.Seek | table/block.cc:164-227 | from any position, with its hints, lands on the first key at or after the target |
| BlockCursor.Build | table/block_builder.cc:61-105 | any list and any restart interval of at least 1 give a block of that list |
| BlockCursor.Open | table/block.cc:25-40 | restart offset and count of a block, or failure |
| BlockCursor.Entries | table/block.cc:229-232 | iterating a finished block gives its list back |
| BlockCursor.Find | table/block.cc:164-227 | a seek in a freshly opened block returns the first pair at or after the target |
| Separators.ShortestSeparator | util/comparator.cc:31-52 | start, or the shortest string in [start, limit), the latter exactly if a byte fits between them where they first differ |
| Separators.ShortSuccessor | util/comparator.cc:54-66 | the shortest string above the key, or the key itself exactly if it is all 0xff |
| Separators.InternalSeparator | db/dbformat.cc:65-82 | start, or the shortest user key between with the seek tag, exactly when that is shorter |
| Separators.InternalSuccessor | db/dbformat.cc:84-97 | the key, or a shorter larger user key with the seek tag, exactly when there is one |
| Separators.SeparatorInRange | table/table_builder.cc:102-109 | a separator lies in [last key, next first key) |
| Bloom.CreateFilter | util/bloom.cc:28-54 | every key the filter is made from matches it, no bit is set that no key probes, and the size follows bits per key with a floor of 64 |
| Bloom.FilterExact | util/bloom.cc:28-54 | the filter of some keys, as a function of them, rejects none of them and has no bit set in vain |
| Bloom.KeyMayMatch | util/bloom.cc:56-80 | true exactly if all probed bits are set, or the number of probes is a reserved one |
| FilterBlock.FilterBlockBuilder.AddKey | table/filter_block.cc:29-33 | the key is recorded for its block's filter |
| FilterBlock.FilterBlockBuilder.GenerateFilter | table/filter_block.cc:51-75 | the flattened keys come back as a list and become one filter |
| FilterBlock.FilterBlockBuilder.StartBlock | table/filter_block.cc:21-27 | filters up to the new block's index exist |
| FilterBlock.FilterBlockBuilder.Finish | table/filter_block.cc:35-49 | every added key is in the group of its block's offset |
| FilterBlock.KeyMayMatch | table/filter_block.cc:77-104 | the filter of the block's offset decides; offsets past the last filter and truncated blocks always match |
| FilterBlock.AddedKeysMatch | table/filter_block.cc:90-104 | a key added for a block is never rejected at its offset |
| FilterBlock.BloomNeverRejects | util/bloom.cc:28-80 | the Bloom policy never rejects a key a filter was made from |
| Table.TableBuilder.Add | table/table_builder.cc:94-123 | the entry joins the open block; a waiting block gets a separating index entry |
| Table.TableBuilder.Flush | table/table_builder.cc:125-139 | the open block is written and the filter moves on |
| Table.TableBuilder.Finish | table/table_builder.cc:198-235 | the table's blocks, index and filter belong together |
| Table.EarlierSeparators | table/table.cc:218-219 | index entries before the right block are before the target |
| Table.OwnSeparator | table/table.cc:218-219 | the right block's own index entry is not |
| Table.InternalGet | table/table.cc:214-242 | if the first entry at or after the target has its user key, one index seek, filter check and block seek find it, with any policy that never rejects |
| Table.BloomGet | table/table.cc:214-242 | the same with a Bloom policy and nothing assumed of it |
| TableBytes.KeyRankOrder | db/dbformat.cc:47-63 | internal keys are ordered as reals, so encoded keys fit the blocks' order |
| TableBytes.FindKey | table/block.cc:164-227 | opening a block of bytes and seeking finds the first key at or after the target in internal order |
| TableBytes.DecodeHandle | table/format.cc:23-29 | a block handle decodes to what was encoded |
| TableBytes.InternalGet | table/table.cc:214-242 | the lookup on index bytes, filter bytes and data-block bytes returns the bytes of the entry |
| TableWriter.WriteBlock | table/table_builder.cc:141-196 | the bytes of a block are those of its entries with encoded keys, and a trailer of five bytes follows |
| TableWriter.RawFlush | table/table_builder.cc:125-139 | after a flush every data block lies in the file where the builder's offsets say |
| TableWriter.RawBuilder.Add | table/table_builder.cc:94-123 | the entry joins the table and the bytes of the flushed blocks stay in place |
| TableWriter.RawBuilder.Finish | table/table_builder.cc:198-257 | index, filter and data-block bytes are those of the table the entries make, unless something outgrows its length field |
| TableWriter.BuildAndGet | table/table.cc:214-242 | what was added is found by a lookup in the bytes that were finished |
| SkipList.SkipList.FindGreaterOrEqual | db/skiplist.h:261-281 | the first node at or after the key and the last node before it at every level, from any height a reader saw |
| SkipList.SkipList.FindLessThan | db/skiplist.h:284-302 | the last node before the key |
| SkipList.SkipList.FindLast | db/skiplist.h:305-322 | the last node |
| SkipList.SkipList.Contains | db/skiplist.h:371-378 | whether the key is linked |
| SkipList.Unlinked | db/skiplist.h:363-365 | a store into a link not on its level yet changes nothing readers see |
| SkipList.Linked | db/skiplist.h:366-366 | after a link store every level is still a sorted sublist of the one below |
| SkipList.SkipList.PointAhead | db/skiplist.h:363-365 | after the first store of a level the list is valid and as readers saw it before |
| SkipList.SkipList.LinkIn | db/skiplist.h:366-366 | after the second store it is valid and the node is on the level |
| SkipList.SkipList.LinkLevel | db/skiplist.h:362-367 | one turn of the loop puts the node in its place on the level; each of its two stores is an operation of its own |
| SkipList.SkipList.Insert | db/skiplist.h:337-368 | the key is in its place; all stores go through the two operations that leave the list valid |
| SkipList.CutSplits | db/skiplist.h:255-258 | a search's result divides the list at the key |
| InterleavedSearch.LinkingGrows | db/skiplist.h:362-367 | linking a node takes no other off its level |
| InterleavedSearch.SearchIsRightAtItsEnd | db/skiplist.h:261-281 | with any stores between its reads, a search returns the first node at or after the key at the moment of its last read |
| InterleavedSearch.LinkedBeforeIsFound | db/skiplist.h:371-378 | so it finds every key that was linked before it began |
| HandleTable.HandleTable.Lookup | util/cache.cc:75-77 | the handle of the key, if there is one |
| HandleTable.HandleTable.Insert | util/cache.cc:79-93 | the map gains the handle and the replaced one is returned |
| HandleTable.HandleTable.Remove | util/cache.cc:95-103 | the map loses the key |
| HandleTable.HandleTable.Resize | util/cache.cc:123-147 | rehashing keeps the contents and leaves no fewer buckets than handles |
| LruCache.RefKeepsInv | util/cache.cc:218-224 | a reference keeps table, lists, charges and counts consistent |
| LruCache.ReleaseKeepsInv | util/cache.cc:226-238 | so does a release, which deletes a handle with its last reference, once |
| LruCache.EraseKeepsInv | util/cache.cc:308-317 | so does removal from the cache |
| LruCache.Cache.Lookup | util/cache.cc:253-260 | returns the cached handle with one more reference |
| LruCache.Cache.Release | util/cache.cc:262-265 | gives one reference back |
| LruCache.Cache.Erase | util/cache.cc:319-322 | the key is gone; its handle lives on while clients hold it |
| LruCache.Cache.Prune | util/cache.cc:324-334 | exactly the handles nobody uses are deleted, oldest first |
| LruCache.Cache.Insert | util/cache.cc:267-304 | the new handle is added and replaces its predecessor (or stays outside with capacity 0); then exactly as many unused handles are deleted, oldest first, as the capacity demands |
| GroupCommit.BuildBatchGroup | db/db_impl.cc:1384-1430 | the longest group the sync and size rules allow |
| GroupCommit.RunsKeepOrder | db/db_impl.cc:1305-1380 | in every interleaving writers are served once and in order of arrival, in groups that obey the rules |
| GroupCommit.ServedOnce | db/db_impl.cc:1363-1372 | the i-th served writer is the i-th that arrived |
| GroupCommit.NumbersDisjoint | db/db_impl.cc:1321-1327 | sequence numbers of groups do not overlap |
| GroupCommit.NumbersContiguous | db/db_impl.cc:1321-1327 | and follow each other without a gap |
| SpinLock.NextKeepsInv | port/port_stdcxx.h:67-85 | every atomic step keeps the word equal to what the threads added, and a writer alone |
| SpinLock.RunsExclude | port/port_stdcxx.h:59-89 | with fewer than 2^63 threads no interleaving has a writer inside with a writer or a reader |

## Left out

- DbRuns.RunsReadHistory: speaks of runs whose compactions resurrect no key, because the code can resurrect one (`Resurrection.DeletedKeyComesBack`); `DbRuns.RunsReadIff` is exact.
- NestedRuns.NestedRunsReadHistory: speaks of the same runs; `NestedRuns.NestedRunsReadIff` is exact.
- NestedRuns.NestedRunsReadIff: speaks of the stored entries while the level invariant holds, since lookups rely on it; `MissedKeys.InstalledMissesIff` says what a lookup misses without it.
- GcProtocol.RunsLookUpRight: speaks of timely runs, since the other promise, that a scanned file is unnamed, needs them; `GcProtocol.RunsRightIff` has no such condition.
- Table.InternalGet: works on blocks as lists of entries; `TableBytes.InternalGet` is the same on bytes.
- TableBytes.InternalGet: the checks of block trailers, compression, the metaindex, the footer and the block cache are not modelled; filter and index bytes are handed over beside the file.
- TableWriter.RawBuilder.Add: whether a block is full is a parameter.
- InterleavedSearch.SearchIsRightAtItsEnd: speaks of searches that end; that a search ends while insertions go on is not stated.
- Vlog.RunsHoldValues: one session only; of a restart, the replay of a log is covered (`VlogRuns.RecoverSession`), reads from vlogs of earlier sessions are not.
- CompactionLoop.DoCompactionWork: every key parses; keys that do not are kept by the code and are not modelled.
- LogReader.Reader.ReadPhysicalRecord: how many bytes a report says were dropped is not modelled, nor is the skipping before an initial offset.
- LogReader.Reader.ReadRecord: reading starts at the beginning of the file; initial offsets and resynchronisation are not modelled.
- BlockIterator.DecodeEntry: the two lengths are added without wrapping at 32 bits, which differs from the code only for corrupt entries whose lengths add up to 2^32 or more.
- NestedRuns.NestedRunsKeepLevels: speaks of clear runs, in which every compaction is also a step of `DbRuns` when it is installed; `NestedRuns.NestedRunsInvIff` and `NestedRuns.NestedRunsReadIff` have no such condition. Output files get their numbers when they are installed.
- DbRuns.RunsKeepLevels: compactions are atomic there; `NestedRuns` carries the result over.
- Compaction scores, seek counters and the choice of the level to compact: they decide when a compaction happens, not what it does.
- One slave: routing of keys to slaves, and SCAN, add only easy facts.
- Sockets, epoll loops, reconnects, request parsing, `distributed/client.cc`.
- ConcurrenceDBIter and TaskQueue, the prefetching iterator.
- PutAddress and DeleteKey as competitors of the writer queue; on the master they are atomic map updates.
- Crash durability, VLOG_META, manifest recovery, repair, dumpfile.
- Checksum, hash and Snappy internals, Env implementations, memory orders, arena and reference-count deallocation.
- Linked lists of the cache are sequences of handles, hash chains are sequences of slots, and freed handles are removed from a map; pointer surgery inside them is not modelled.
