# ANSWR: models of its storage engine and its message codec

ANSWR is an iOS application. Two of the libraries it ships with hold its hard logic: LevelDB, the
key-value store under its database (`ANSWR/Pods/leveldb-library`), and nanopb, the Protocol Buffers
codec that its back-end client speaks (`ANSWR/Pods/nanopb`). This project models both in Dafny and
proves what they are relied on for.

`dafny verify dfyconfig.toml` verifies everything.

## What is modelled

**The engine.** The abstract database is the history of all writes; a read at a sequence number
returns the latest write of the key numbered at or below it (`History.dfy`). `Lsm.dfy` is the engine
as a state machine: log a batch, insert it, publish it, rotate the memtable, flush, move a file,
compact, take and release snapshots and iterators, delete files, crash and recover. `LsmSteps.dfy`
shows that every step keeps one invariant, `LsmRuns.dfy` what that means for whole runs. `DbImpl.dfy`
is the database object, whose methods take those steps: its `Valid()` says that a run leads to its
state and that the manifest on disk describes it. The parts it calls are `Version.dfy` (reads and
searches over levels), `InputSelection.dfy`, `Compaction.dfy`, `CompactionWork.dfy` and
`CompactionReads.dfy` (compactions), `Builder.dfy`, `Manifest.dfy`, `Install.dfy`, `Descriptor.dfy`
and `DescriptorSteps.dfy` (version edits and the manifest), `Replay.dfy` (logs read back). A flush is
a step of its own and never falls between picking and installing a compaction.

**The read path.** `Merger.dfy`, `TwoLevel.dfy` and `DbIter.dfy` are the iterators, each shown to
walk as a plain cursor over one sorted list would; `DbView.dfy` puts them over a whole database.
`Block.dfy`, `Table.dfy`, `FilterBlock.dfy`, `Bloom.dfy` and `Comparator.dfy` are tables and filters
on bytes.

**Structures and codecs.** `SkipList.dfy` (with readers interleaved with single pointer stores),
`LruCache.dfy`, `SnapshotList.dfy`, `MemEntries.dfy`, `Log.dfy`, `WriteBatch.dfy`, `VersionEdit.dfy`,
`Coding.dfy`, and `GroupCommit.dfy`, the queue of writers as a state machine over the points where
the mutex is free.

**nanopb.** `PbCommon.dfy` describes messages by field lists, as the generator emits them.
`PbEncode.dfy` and `PbDecode.dfy` specify encoding and decoding; the stream classes there and in
`PbStream.dfy` follow the C code and meet those specifications; `PbRoundTrip.dfy` relates the two.
`PbWire.dfy` states the wire format in numbers and shows that it is what is encoded, `PbForward.dfy`
that a receiver understands senders with fields it does not know, `PbAccept.dfy` what it makes of
fields that come again, in another order, in other pieces, or with values they cannot hold.
The format is that of the Protocol Buffers encoding specification, sections "Base 128 Varints",
"Length-Delimited Records" and "Packed Repeated Fields".

Integer widths are explicit where the code depends on them: 32- and 64-bit values, their wrap-around
in hashes, checksums, filter offsets and varints, and truncation when a field is narrower than what
was sent. Hash and checksum functions are parameters. So are choices the code leaves to sizes, clocks
or chance: when a memtable is full, where an output file or a block is cut, which file is due.

## Model

| member | source | states |
|---|---|---|
| `CompactionReads.CompactionPreservesReads` | ANSWR/Pods/leveldb-library/db/db_impl.cc:905-999 | For any legal inputs and the outputs of the drop loop, all reads of all keys at or above the oldest snapshot keep their answer if and only if no dropped deletion marker has an older value of its key in a level L+1 file outside the inputs. |
| `CompactionReads.ClosedEdgesPreventResurrection` | ANSWR/Pods/leveldb-library/db/version_set.cc:1403-1412 | If no user key is shared by a level L+1 input and a level L+1 file left behind, no key can come back, whatever the entries are. |
| `CompactionReads.StraddlingKeyResurrects` | ANSWR/Pods/leveldb-library/db/version_set.cc:1407-1411 | A version on which the inputs are legal, the outputs are those of the drop loop, and a read finds key 5 deleted before the compaction and its old value after it. |
| `CompactionReads.StraddlingForcesInputs` | ANSWR/Pods/leveldb-library/db/version_set.cc:1403-1411 | On that version the overlap rule leaves a compaction of the upper level no other inputs. |
| `CompactionReads.ChangedReadResurrects` | ANSWR/Pods/leveldb-library/db/db_impl.cc:946-960 | A legal compaction after which some read at the oldest snapshot answers differently is one that drops a marker over an older value outside its inputs. |
| `StraddlingRuns.RunReachesStraddling` | ANSWR/Pods/leveldb-library/db/db_impl.cc:974-995 | The engine reaches that version from the empty database by writes, a snapshot, flushes and one manual compaction whose output is cut between two versions of key 5. |
| `StraddlingRuns.RunResurrects` | ANSWR/Pods/leveldb-library/db/db_impl.cc:946-960 | In the state reached, the history says key 5 is deleted and a read agrees; after the next compaction a read at the last sequence returns the old value. |
| `StraddlingRuns.PickStraddling` | ANSWR/Pods/leveldb-library/db/version_set.cc:1270-1322 | The picking code itself, from any file due in that level, returns exactly the straddling inputs and no trivial move. |
| `Compactions.CompactionKeepsLevels` | ANSWR/Pods/leveldb-library/db/db_impl.cc:860-876 | Installing outputs made of inputs keeps the whole level invariant: sorted, disjoint below level 0, and for every user key newer entries in smaller levels. |
| `CompactionWork.Compaction.IsBaseLevelForKey` | ANSWR/Pods/leveldb-library/db/version_set.cc:1533-1552 | Asked for user keys in ascending order, the moving cursors answer exactly whether any file two or more levels down spans the key. |
| `CompactionWork.DoCompactionWork` | ANSWR/Pods/leveldb-library/db/db_impl.cc:905-1006 | The concatenated output files are exactly the input entries that are neither hidden from the oldest snapshot by a newer input nor obsolete deletion markers, in order, wherever the outputs are cut. |
| `CompactionWork.HiddenByPrevious` | ANSWR/Pods/leveldb-library/db/db_impl.cc:937-962 | Comparing with the previous entry only decides whether any newer entry of the key is visible to the oldest snapshot. |
| `CompactionWork.OutputsAreLegal` | ANSWR/Pods/leveldb-library/db/db_impl.cc:974-1006 | Written under fresh numbers, the outputs of the loop are disjoint, sorted and hold exactly the survivors. |
| `InputSelection.GetOverlappingInputs` | ANSWR/Pods/leveldb-library/db/version_set.cc:519-559 | Terminates, and returns the files that meet the range; in level 0 for the least range that includes the given one and that no meeting file sticks out of. |
| `InputSelection.SmallestBoundaryIsLeast` | ANSWR/Pods/leveldb-library/db/version_set.cc:1344-1362 | The boundary file found is one, and none has a smaller first key; none is found only if none exists. |
| `InputSelection.AddBoundaryInputs` | ANSWR/Pods/leveldb-library/db/version_set.cc:1378-1401 | The loop over boundary files ends and yields the closure of the inputs under them. |
| `InputSelection.BoundaryKeepsRun` | ANSWR/Pods/leveldb-library/db/version_set.cc:1388-1400 | In a sorted level a run of adjacent files stays one, and the file after it does not start with its last user key. |
| `InputSelection.BoundaryClosesPick` | ANSWR/Pods/leveldb-library/db/version_set.cc:1364-1401 | After the boundary files no entry of the last picked user key is left behind in the level. |
| `InputSelection.ExpansionKeepsLowerInputs` | ANSWR/Pods/leveldb-library/db/version_set.cc:1429-1444 | Accepting the expanded inputs because they overlap as many files below leaves the very same files below. |
| `InputSelection.SetupOtherInputs` | ANSWR/Pods/leveldb-library/db/version_set.cc:1403-1447 | From any legal pick the inputs that result are legal; they are the pick with its boundary files, or the wider inputs exactly if these are more files, stay under the limit together with the files below, and meet as many files below. |
| `InputSelection.PickCompaction` | ANSWR/Pods/leveldb-library/db/version_set.cc:1270-1322 | From any file due, the inputs are legal, include that file and are those its pick leads to. |
| `InputSelection.CompactRange` | ANSWR/Pods/leveldb-library/db/version_set.cc:1464-1495 | A manual compaction has legal inputs, and none exactly when no file of the level meets the range; below level 0 they come from the shortest front of the files met that reaches the limit. |
| `InputSelection.PickLevelForMemTableOutput` | ANSWR/Pods/leveldb-library/db/version_set.cc:491-517 | The level chosen has no overlap in any level down to it and few enough bytes two levels below each, and is deeper unless the next level overlaps or too many bytes lie two levels further down. |
| `Versions.FindFile` | ANSWR/Pods/leveldb-library/db/version_set.cc:88-106 | The binary search returns the first file whose largest key is at or after the lookup key. |
| `Versions.SomeFileOverlapsRange` | ANSWR/Pods/leveldb-library/db/version_set.cc:122-160 | Linear over overlapping files or binary over disjoint ones, it answers whether some file overlaps the range. |
| `Versions.GetLevelZero` | ANSWR/Pods/leveldb-library/db/version_set.cc:349-364 | Searching newest file first and stopping at the first that knows the key gives the newest visible version of the whole level. |
| `Versions.GetSortedLevel` | ANSWR/Pods/leveldb-library/db/version_set.cc:365-382 | One binary search and at most one table give the newest visible version of the level. |
| `Versions.Get` | ANSWR/Pods/leveldb-library/db/version_set.cc:326-421 | Stopping at the first level that knows the key gives the newest version at or below the sequence among all entries of all levels. |
| `LsmSteps.StepKeepsInv` | ANSWR/Pods/leveldb-library/db/db_impl.cc:280-1036 | Every step (log, insert, publish, rotate, flush, move, compact, snapshots, iterators, garbage collection, crash and recovery) keeps the invariant of memtables, levels, logs, file numbers and reads. |
| `LsmSteps.CompactKeepsReads` | ANSWR/Pods/leveldb-library/db/db_impl.cc:878-1036 | A compaction step keeps the level order and the answer of every read above the new floor. |
| `LsmSteps.FlushKeepsEntries` | ANSWR/Pods/leveldb-library/db/db_impl.cc:535-566 | A flush moves exactly the entries of the immutable memtable into the levels, which stay ordered, under a number used nowhere else. |
| `LsmSteps.CollectGarbageKeepsInv` | ANSWR/Pods/leveldb-library/db/db_impl.cc:223-278 | Removing files no version, iterator or pending output names keeps the invariant. |
| `LsmSteps.ReplayIsExact` | ANSWR/Pods/leveldb-library/db/db_impl.cc:326-359 | The logs from the manifest's log number on hold exactly the writes that are not yet in tables. |
| `LsmSteps.RecoveredSequenceIsLast` | ANSWR/Pods/leveldb-library/db/db_impl.cc:364-366 | The larger of the manifest's sequence and the highest number in the logs is the number of the last logged write. |
| `LsmSteps.RecoverKeepsInv` | ANSWR/Pods/leveldb-library/db/db_impl.cc:280-369 | Recovery from what is on disk after a crash at any step restores the invariant. |
| `LsmRuns.RunReadsAreRight` | ANSWR/Pods/leveldb-library/db/db_impl.cc:1100-1145 | In every run, crashes included, a read at the last sequence or at a held snapshot returns what the write history says. |
| `LsmRuns.SnapshotsAreStable` | ANSWR/Pods/leveldb-library/db/db_impl.cc:1166-1175 | A snapshot held at two points of a run reads the same value of every key at both. |
| `LsmRuns.RecoveryIsExact` | ANSWR/Pods/leveldb-library/db/db_impl.cc:280-369 | After recovery the last sequence is the number of logged writes and every key reads as exactly those writes say. |
| `LsmRuns.CrashDuringRecovery` | ANSWR/Pods/leveldb-library/db/db_impl.cc:1474-1511 | Tables and empty logs left by recoveries that crashed before their manifest was installed change nothing about what the next recovery yields. |
| `LsmRuns.ReadersSeeWholeBatches` | ANSWR/Pods/leveldb-library/db/db_impl.cc:1185-1237 | At every point of a run the unpublished writes are one whole log record: readers see every earlier batch whole and nothing of this one. |
| `LsmRuns.LogOnlyGrows` | ANSWR/Pods/leveldb-library/db/db_impl.cc:1209-1215 | No step, not even a crash, forgets or rewrites a logged write. |
| `LsmRuns.GarbageIsUnneeded` | ANSWR/Pods/leveldb-library/db/db_impl.cc:223-278 | After garbage collection every table of the current version, of a pinned version and of a pending output is still there, and recovery would replay the same entries. |
| `Histories.LaterWritesInvisible` | ANSWR/Pods/leveldb-library/db/db_impl.cc:1100-1112 | Writes after a sequence number do not change what a read at it returns. |
| `DbImpl.DBImpl.constructor` | ANSWR/Pods/leveldb-library/db/db_impl.cc:182-212 | NewDB and Open make an empty database in a state a run starts from, with no writes, empty levels and a manifest that says so. |
| `DbImpl.DBImpl.Get` | ANSWR/Pods/leveldb-library/db/db_impl.cc:1100-1145 | Memtable, immutable memtable, then the version: the value returned is the write history's at the snapshot or the last sequence. |
| `DbImpl.DBImpl.GetSnapshot` | ANSWR/Pods/leveldb-library/db/db_impl.cc:1166-1169 | Takes the last sequence as a snapshot and changes nothing else. |
| `DbImpl.DBImpl.ReleaseSnapshot` | ANSWR/Pods/leveldb-library/db/db_impl.cc:1171-1175 | Drops that snapshot and changes nothing else. |
| `DbImpl.DBImpl.Write` | ANSWR/Pods/leveldb-library/db/db_impl.cc:1185-1237 | Log, insert, publish: the history grows by exactly the batch, and the last sequence is its new length. |
| `DbImpl.DBImpl.MakeRoomForWrite` | ANSWR/Pods/leveldb-library/db/db_impl.cc:1310-1370 | Switches to a new log and memtable exactly when the memtable is full and none waits to be flushed; else nothing changes. |
| `DbImpl.DBImpl.CompactMemTable` | ANSWR/Pods/leveldb-library/db/db_impl.cc:535-566 | One flush step with its manifest record, to the level that overlaps and bytes further down allow. |
| `DbImpl.DBImpl.DeleteObsoleteFiles` | ANSWR/Pods/leveldb-library/db/db_impl.cc:223-278 | Keeps exactly the live tables and the logs from the log number on. |
| `DbImpl.DBImpl.OpenCompactionOutputFile` | ANSWR/Pods/leveldb-library/db/db_impl.cc:786-809 | Allocates a number and protects it until the outputs are installed. |
| `DbImpl.DBImpl.Install` | ANSWR/Pods/leveldb-library/db/db_impl.cc:860-876 | Replaces inputs by outputs and records it; reads keep their answers exactly when no key resurfaces, and then the state is again one a run reaches. |
| `DbImpl.DBImpl.MoveFile` | ANSWR/Pods/leveldb-library/db/db_impl.cc:718-733 | A trivial move changes no read and keeps the manifest true. |
| `DbImpl.DBImpl.DoCompaction` | ANSWR/Pods/leveldb-library/db/db_impl.cc:878-1036 | For any legal inputs: the outputs are the survivors, they replace the inputs, and reads at or above the oldest snapshot are kept if and only if the inputs are safe. |
| `DbImpl.DBImpl.BackgroundCompaction` | ANSWR/Pods/leveldb-library/db/db_impl.cc:688-744 | From any file due: the inputs its pick leads to; it is only moved if and only if it is alone, meets no file below and no more bytes two levels down than the limit; reads are kept if and only if it is moved or the inputs picked are safe. |
| `DbImpl.ApartKeysMakeSafePicks` | ANSWR/Pods/leveldb-library/db/version_set.cc:1403-1412 | If no two files of the next level share a boundary user key, every pick from this level is safe. |
| `DbImpl.DBImpl.Recover` | ANSWR/Pods/leveldb-library/db/db_impl.cc:280-369 | From the manifest and the logs on disk alone, one recovery step: the same history, all of it published. |
| `DbImpl.Pick` | ANSWR/Pods/leveldb-library/db/version_set.cc:1270-1323 | The picked inputs are legal, closed, include the file due and are those its pick leads to; the move is trivial if and only if there is one file above, none below, and the files two levels down that meet its range are together within the limit. |
| `DbImpl.MakeInputIterator` | ANSWR/Pods/leveldb-library/db/version_set.cc:1237-1268 | The merged input holds exactly the entries of the input files, in key order. |
| `Replays.RecoverLogFile` | ANSWR/Pods/leveldb-library/db/db_impl.cc:371-489 | Replaying a log turns exactly its writes into tables of ascending numbers and consecutive sequences, wherever the memtable is flushed, and returns the highest number. |
| `Replays.RecoverLogs` | ANSWR/Pods/leveldb-library/db/db_impl.cc:326-359 | All logs in number order give exactly the writes from the first log's start to the end of the history. |
| `Replays.SortedNumbers` | ANSWR/Pods/leveldb-library/db/db_impl.cc:349-351 | The log numbers come out ascending, each once. |
| `Builders.Builder.Apply` | ANSWR/Pods/leveldb-library/db/version_set.cc:650-692 | Deletions first, then additions, level by level, onto what the builder has gathered. |
| `Builders.Builder.SaveLevel` | ANSWR/Pods/leveldb-library/db/version_set.cc:695-723 | The merge loop over base and added files yields their ordered merge without the deleted ones. |
| `Builders.MergedMembers` | ANSWR/Pods/leveldb-library/db/version_set.cc:695-754 | The merge holds exactly the base and added files whose numbers are not deleted. |
| `Builders.MergedSorted` | ANSWR/Pods/leveldb-library/db/version_set.cc:695-739 | Merging sorted files with numbers apart gives a sorted level. |
| `Builders.SortedUnique` | ANSWR/Pods/leveldb-library/db/version_set.cc:593-607 | A sorted level is determined by its set of files. |
| `Manifests.LogAndApply` | ANSWR/Pods/leveldb-library/db/version_set.cc:816-821 | The new version is the old one with the edit applied, level by level. |
| `Manifests.Recover` | ANSWR/Pods/leveldb-library/db/version_set.cc:886-1011 | Replays all records through one builder; fails exactly if a counter was never set; the last record to set a counter wins. |
| `Manifests.ReplayEqualsLive` | ANSWR/Pods/leveldb-library/db/version_set.cc:933-992 | Replaying the edits through one builder and saving once gives the same ordered files as a builder for each edit. |
| `Manifests.ManifestReplays` | ANSWR/Pods/leveldb-library/db/version_set.cc:1088-1116 | A snapshot record and all later edits replay on an empty version to exactly the live version, if added numbers are fresh at their level. |
| `Installs.AddFiles` | ANSWR/Pods/leveldb-library/db/version_set.cc:801-821 | An edit that adds files yields the version with those files at that level and nothing else changed. |
| `Installs.InstallCompactionResults` | ANSWR/Pods/leveldb-library/db/db_impl.cc:866-875 | The compaction's edit yields the version with the outputs in place of the inputs and nothing else changed. |
| `Descriptors.AddDescribes` | ANSWR/Pods/leveldb-library/db/version_set.cc:801-856 | After the record of added files the manifest still replays to the live version, and their numbers were fresh at the level. |
| `Descriptors.CompactionDescribes` | ANSWR/Pods/leveldb-library/db/version_set.cc:801-856 | The same after the record of a compaction or a move: no level ever sees a number twice. |
| `Descriptors.SnapshotDescribes` | ANSWR/Pods/leveldb-library/db/version_set.cc:1088-1116 | A manifest made of the snapshot record alone replays to the version it was taken of. |
| `Descriptors.SaysReplays` | ANSWR/Pods/leveldb-library/db/version_set.cc:990-1000 | A manifest that describes a version is replayed to that version. |
| `DescriptorSteps.FlushKeepsManifest` | ANSWR/Pods/leveldb-library/db/db_impl.cc:547-556 | A flush step and its record keep the manifest describing the engine's state. |
| `DescriptorSteps.CompactionKeepsManifest` | ANSWR/Pods/leveldb-library/db/db_impl.cc:860-876 | A compaction or move and its record keep the manifest describing the engine's state. |
| `DescriptorSteps.RecoveryKeepsManifest` | ANSWR/Pods/leveldb-library/db/db_impl.cc:1497-1501 | The manifest that opening the database writes describes the recovered state. |
| `VersionEdits.FieldsRoundTrip` | ANSWR/Pods/leveldb-library/db/version_edit.cc:107-205 | Encoded fields read back as exactly those fields. |
| `VersionEdits.FieldInNumbers` | ANSWR/Pods/leveldb-library/db/version_edit.cc:14-24 | The byte that each kind of field starts with. |
| `VersionEdits.NumbersAreTagged` | ANSWR/Pods/leveldb-library/db/version_edit.cc:46-61 | An edit's log number is written under tag 2, its next file number under 3, its last sequence under 4, its previous log number under 9, each exactly if it is set. |
| `VersionEdits.VersionEdit.EncodeTo` | ANSWR/Pods/leveldb-library/db/version_edit.cc:41-85 | Appends the encoding of the edit's fields, in their order. |
| `VersionEdits.VersionEdit.DecodeFrom` | ANSWR/Pods/leveldb-library/db/version_edit.cc:107-205 | Succeeds exactly if all fields are readable; the fields read before an error have been applied. |
| `VersionEdits.VersionEdit.Clear` | ANSWR/Pods/leveldb-library/db/version_edit.cc:26-38 | Resets everything but the compaction pointers. |
| `VersionEdits.RoundTrip` | ANSWR/Pods/leveldb-library/db/version_edit.cc:41-205 | Decoding an encoded edit gives the edit back, its compaction pointers appended to those the target already had. |
| `DbIter.RowsAreTheReads` | ANSWR/Pods/leveldb-library/db/db_iter.cc:30-299 | The visible rows ascend by user key and hold exactly what a read of each key at the sequence returns. |
| `DbIter.DBIter.Next` | ANSWR/Pods/leveldb-library/db/db_iter.cc:141-166 | Moves to the next visible row, from either direction, or past the end. |
| `DbIter.DBIter.Prev` | ANSWR/Pods/leveldb-library/db/db_iter.cc:200-225 | Moves to the previous visible row, from either direction, or before the start. |
| `DbIter.DBIter.Seek` | ANSWR/Pods/leveldb-library/db/db_iter.cc:269-281 | Stands at the first row at or after the target, or nowhere if there is none. |
| `DbIter.DBIter.SeekToFirst` | ANSWR/Pods/leveldb-library/db/db_iter.cc:283-292 | Stands at the first row. |
| `DbIter.DBIter.SeekToLast` | ANSWR/Pods/leveldb-library/db/db_iter.cc:294-299 | Stands at the last row. |
| `DbIter.DBIter.Key` | ANSWR/Pods/leveldb-library/db/db_iter.cc:64-67 | The key of the row, in both directions. |
| `DbIter.DBIter.Value` | ANSWR/Pods/leveldb-library/db/db_iter.cc:68-71 | The value of the row, in both directions. |
| `DbIter.DBIter.FindNextUserEntry` | ANSWR/Pods/leveldb-library/db/db_iter.cc:168-198 | The forward scan stops at the first entry that is shown and skips none. |
| `DbIter.DBIter.FindPrevUserEntry` | ANSWR/Pods/leveldb-library/db/db_iter.cc:227-267 | The backward scan stops past the last entry that is shown before the start and skips none. |
| `DbView.DatabaseMerges` | ANSWR/Pods/leveldb-library/db/db_impl.cc:1062-1087 | The memtables, level-0 files and deeper levels of any reachable state are sorted runs without a common key whose union is all its entries. |
| `DbView.IterationShowsHistory` | ANSWR/Pods/leveldb-library/db/db_impl.cc:1147-1157 | The rows of an iterator at a live sequence are exactly the keys and values of the history there. |
| `Merger.MergingIterator.Next` | ANSWR/Pods/leveldb-library/table/merger.cc:55-79 | Steps as an iterator over the sorted union does, whichever way the children were going. |
| `Merger.MergingIterator.Prev` | ANSWR/Pods/leveldb-library/table/merger.cc:81-108 | Steps back as an iterator over the sorted union does, whichever way the children were going. |
| `Merger.MergingIterator.Seek` | ANSWR/Pods/leveldb-library/table/merger.cc:47-53 | Seeks as an iterator over the sorted union does. |
| `Merger.MergingIterator.SeekToFirst` | ANSWR/Pods/leveldb-library/table/merger.cc:31-37 | Goes to the first entry of the union. |
| `Merger.MergingIterator.SeekToLast` | ANSWR/Pods/leveldb-library/table/merger.cc:39-45 | Goes to the last entry of the union. |
| `Merger.MergingIterator.FindSmallest` | ANSWR/Pods/leveldb-library/table/merger.cc:148-161 | The current child has the least key of all valid children. |
| `Merger.MergingIterator.FindLargest` | ANSWR/Pods/leveldb-library/table/merger.cc:163-175 | The current child has the greatest key of all valid children. |
| `TwoLevel.TwoLevelIterator.Seek` | ANSWR/Pods/leveldb-library/table/two_level_iterator.cc:82-87 | Seeks as an iterator over the concatenated blocks does, skipping empty blocks. |
| `TwoLevel.TwoLevelIterator.Next` | ANSWR/Pods/leveldb-library/table/two_level_iterator.cc:103-107 | Steps as an iterator over the concatenated blocks does. |
| `TwoLevel.TwoLevelIterator.Prev` | ANSWR/Pods/leveldb-library/table/two_level_iterator.cc:109-113 | Steps back as an iterator over the concatenated blocks does. |
| `TwoLevel.TwoLevelIterator.SeekToFirst` | ANSWR/Pods/leveldb-library/table/two_level_iterator.cc:89-94 | Goes to the first entry of all blocks. |
| `TwoLevel.TwoLevelIterator.SeekToLast` | ANSWR/Pods/leveldb-library/table/two_level_iterator.cc:96-101 | Goes to the last entry of all blocks. |
| `TwoLevel.SeekByIndex` | ANSWR/Pods/leveldb-library/table/two_level_iterator.cc:82-87 | Seeking the index, then the block it names, lands where a search of the whole concatenation does. |
| `Blocks.BlockBuilder.Add` | ANSWR/Pods/leveldb-library/table/block_builder.cc:72-104 | The block gains exactly the entry. Entry i is a restart point and shares nothing if and only if i is a multiple of the interval; every other entry shares its whole common prefix with the key before it. |
| `Blocks.FinishedIsBlock` | ANSWR/Pods/leveldb-library/table/block_builder.cc:62-70 | The finished bytes hold the entries, the restart offsets and their number. |
| `Blocks.FastPath` | ANSWR/Pods/leveldb-library/table/block.cc:54-76 | The single-byte fast path reads the same lengths as the varints. |
| `Blocks.BlockIter.Next` | ANSWR/Pods/leveldb-library/table/block.cc:137-140 | On a built block, moves to the next entry; on any other bytes it stays in bounds and ends. |
| `Blocks.BlockIter.Prev` | ANSWR/Pods/leveldb-library/table/block.cc:142-161 | Moves to the entry before, undoing Next. |
| `Blocks.BlockIter.Seek` | ANSWR/Pods/leveldb-library/table/block.cc:163-201 | Binary search over restarts and a scan land on the first key at or after the target. |
| `Blocks.BlockIter.SeekToLast` | ANSWR/Pods/leveldb-library/table/block.cc:208-213 | Lands on the last entry. |
| `Blocks.RoundTrip` | ANSWR/Pods/leveldb-library/table/block_builder.cc:62-106 | Iterating a finished block yields exactly the entries added. |
| `Tables.TableBuilder.Add` | ANSWR/Pods/leveldb-library/table/table_builder.cc:94-123 | Appends the entry; index, filter and pending index entry stay right whatever is flushed. |
| `Tables.TableBuilder.Finish` | ANSWR/Pods/leveldb-library/table/table_builder.cc:198-253 | The finished table is well formed: its blocks partition the entries, each index key separates its block from the next, and the filter has for every 2KB of data exactly the user keys of the entries whose blocks start there. |
| `Tables.IndexFinds` | ANSWR/Pods/leveldb-library/table/table.cc:219-221 | Despite shortened separators, the index seek names the block that holds the first entry at or after the key, when that entry has the key's user key. |
| `Tables.GetFinds` | ANSWR/Pods/leveldb-library/table/table.cc:216-237 | That block's group of keys holds the user key, and a seek in the block finds the entry. |
| `Tables.InternalGet` | ANSWR/Pods/leveldb-library/table/table.cc:216-244 | Reports an entry of the key's user key exactly if the first entry at or after the key in a linear scan has it, and then that entry; the block is read exactly if the index names one and its filter has all probes of the user key. |
| `FilterBlocks.FilterBlockBuilder.StartBlock` | ANSWR/Pods/leveldb-library/table/filter_block.cc:21-27 | The pending keys close their group and empty ones follow, up to the block's index; no added key loses its filter. |
| `FilterBlocks.FilterBlockBuilder.GenerateFilter` | ANSWR/Pods/leveldb-library/table/filter_block.cc:51-75 | One filter for exactly the pending keys. |
| `FilterBlocks.FilterBlockBuilder.Finish` | ANSWR/Pods/leveldb-library/table/filter_block.cc:35-49 | The finished block has for every group exactly the filter of its keys, none for an empty group, found by its offset as long as offsets fit 32 bits. |
| `FilterBlocks.KeyMayMatch` | ANSWR/Pods/leveldb-library/table/filter_block.cc:90-104 | On a finished block the answer is no if and only if the offset's group exists and one of the key's probes meets no probe of the group's keys; so an empty group answers no, an offset past the groups yes, and a key of the group yes. |
| `Bloom.CreateFilter` | ANSWR/Pods/leveldb-library/util/bloom.cc:28-54 | The filter has the size asked for, exactly the bits of the probes of its keys, and the probe count at its end; every key matches. |
| `Bloom.FilterAnswers` | ANSWR/Pods/leveldb-library/util/bloom.cc:56-80 | A filter says yes to exactly the keys whose probes all meet probes of its own keys. |
| `Bloom.HeldKeyMatches` | ANSWR/Pods/leveldb-library/util/bloom.cc:71-79 | All probes of a held key are set, with the 32-bit wrap-around of the double hashing. |
| `Comparators.Transitive` | ANSWR/Pods/leveldb-library/util/comparator.cc:25-27 | Byte order is transitive. |
| `Comparators.Total` | ANSWR/Pods/leveldb-library/util/comparator.cc:25-27 | Byte order is total. |
| `Comparators.FindShortestSeparator` | ANSWR/Pods/leveldb-library/util/comparator.cc:29-50 | The result is the key or lies strictly between key and limit, no longer than the key, and is the one the first differing byte determines. |
| `Comparators.FindShortSuccessor` | ANSWR/Pods/leveldb-library/util/comparator.cc:52-64 | The result is the key cut after its first byte that is not 0xff, with that byte one higher and so after the key, or the key itself if all are 0xff. |
| `Comparators.InternalSeparator` | ANSWR/Pods/leveldb-library/db/dbformat.cc:69-86 | The separator is at or after the start and before the limit; it is the start unless its user key can be cut right after the first different byte, raised, and then has the highest sequence number. |
| `Comparators.InternalSuccessor` | ANSWR/Pods/leveldb-library/db/dbformat.cc:88-101 | The successor is at or after the key; it is the key unless its user key can be cut after the first byte that can be raised, and then has the highest sequence number. |
| `SkipLists.SkipList.FindGreaterOrEqual` | ANSWR/Pods/leveldb-library/db/skiplist.h:260-282 | The descent returns the first node of a linear scan of level 0 at or after the key, and its predecessor on every level. |
| `SkipLists.SkipList.FindLessThan` | ANSWR/Pods/leveldb-library/db/skiplist.h:284-302 | Returns the last node of level 0 before the key. |
| `SkipLists.SkipList.FindLast` | ANSWR/Pods/leveldb-library/db/skiplist.h:304-322 | Returns the last node of level 0. |
| `SkipLists.SkipList.LinkLevel` | ANSWR/Pods/leveldb-library/db/skiplist.h:360-368 | After each of the two pointer stores of a level, every level is a sorted sublist of the one below. |
| `SkipLists.SkipList.Insert` | ANSWR/Pods/leveldb-library/db/skiplist.h:336-369 | Each single store leads through a well-formed memory that only grows; at the end the key is in its sorted place. |
| `SkipLists.StepKeepsReader` | ANSWR/Pods/leveldb-library/db/skiplist.h:260-282 | One step of a search keeps what a reader knows of the list. |
| `SkipLists.Linearizes` | ANSWR/Pods/leveldb-library/db/skiplist.h:260-282 | A reader interleaved with stores returns what a search of one of the memories it met would have returned. |
| `SkipLists.NeverMisses` | ANSWR/Pods/leveldb-library/db/skiplist.h:260-369 | A reader interleaved with any stores returns a key at or after its target and never passes a key that was there when it started. |
| `LruCache.HandleTable.Insert` | ANSWR/Pods/leveldb-library/util/cache.cc:78-92 | The table refines a map: insertion replaces and returns the old entry; the table grows exactly when there are more entries than chains. |
| `LruCache.HandleTable.Remove` | ANSWR/Pods/leveldb-library/util/cache.cc:94-102 | Removal takes the entry out of the map and returns it. |
| `LruCache.HandleTable.Resize` | ANSWR/Pods/leveldb-library/util/cache.cc:122-146 | Rehashing every chain into the least power of two of chains, from 4 on, that is not smaller than the number of entries keeps the map. |
| `LruCache.LRUCache.Insert` | ANSWR/Pods/leveldb-library/util/cache.cc:266-303 | The new entry has the name and charge given; usage grows by the charge less what was replaced and evicted; the entry of the same name is let go; of the unused ones only the oldest go, each needed, with their deleters in that order, until usage is within capacity or nothing is unused. |
| `LruCache.LRUCache.Lookup` | ANSWR/Pods/leveldb-library/util/cache.cc:252-259 | Returns the mapped entry and takes one reference to it; an unused entry becomes the newest in use. |
| `LruCache.LRUCache.Release` | ANSWR/Pods/leveldb-library/util/cache.cc:261-264 | Gives back one reference. The last client's makes a cached entry the newest unused one and deletes one that is not cached; nothing else changes. |
| `LruCache.LRUCache.Erase` | ANSWR/Pods/leveldb-library/util/cache.cc:318-321 | Takes the entry out of the map, the lists and the usage; its deleter is called exactly if nobody holds it. |
| `LruCache.LRUCache.Prune` | ANSWR/Pods/leveldb-library/util/cache.cc:323-333 | Deletes every unused entry, oldest first, and no other. |
| `LruCache.CachedIsNamed` | ANSWR/Pods/leveldb-library/util/cache.cc:306-316 | An entry is marked as cached exactly if the table names it. |
| `SnapshotLists.SnapshotList.New` | ANSWR/Pods/leveldb-library/db/snapshot.h:57-72 | The list gains the snapshot at its new end. |
| `SnapshotLists.SnapshotList.Delete` | ANSWR/Pods/leveldb-library/db/snapshot.h:79-88 | The circle closes over the removed node; the others keep their order. |
| `SnapshotLists.SnapshotList.Oldest` | ANSWR/Pods/leveldb-library/db/snapshot.h:47-50 | The oldest snapshot has the least number. |
| `MemEntries.CompareIsOrder` | ANSWR/Pods/leveldb-library/db/dbformat.cc:51-67 | Comparing encoded internal keys is the order by user key, then descending sequence and type. |
| `MemEntries.ParseRoundTrip` | ANSWR/Pods/leveldb-library/db/dbformat.h:165-176 | Parsing a packed internal key gives back user key, sequence and type, if the type is known. |
| `MemEntries.BuildEntry` | ANSWR/Pods/leveldb-library/db/memtable.cc:75-98 | The bytes written are the entry's encoding and fill the allocation exactly. |
| `MemEntries.GetIsNewest` | ANSWR/Pods/leveldb-library/db/memtable.cc:100-133 | A memtable read finds the newest record of the key at or below the sequence, its value or its deletion, and nothing only if there is none. |
| `Logs.Writer.AddRecord` | ANSWR/Pods/leveldb-library/db/log_writer.cc:34-80 | Terminates, and the file holds the fragments of all records so far, none across a block, this one last. |
| `Logs.FragmentInNumbers` | ANSWR/Pods/leveldb-library/db/log_writer.cc:44-75 | The bytes of a fragment: zeros if fewer than 7 bytes are left of a block of 32768, a header of 7, the data, none of it across a block. |
| `Logs.HeaderInNumbers` | ANSWR/Pods/leveldb-library/db/log_writer.cc:82-96 | The header: masked checksum of type and data in four bytes, length in two, both lowest byte first, and the type. |
| `Logs.KindsInNumbers` | ANSWR/Pods/leveldb-library/db/log_format.h:14-24 | A whole record has type 1; a cut one starts with type 2, ends with type 4 and has type 3 in between. |
| `Logs.Reader.ReadPhysicalRecord` | ANSWR/Pods/leveldb-library/db/log_reader.cc:189-271 | In a log cut off anywhere, the next fragment if all of it is there, else the end; on any file it makes progress or ends. |
| `Logs.Reader.ReadRecord` | ANSWR/Pods/leveldb-library/db/log_reader.cc:56-174 | Puts the next record together exactly if all of its fragments are there, and reports nothing in a log that is only cut off. |
| `Logs.RoundTrip` | ANSWR/Pods/leveldb-library/db/log_reader.cc:56-174 | Of a log cut off at any byte, exactly the records that lie before the cut are read back, without a report of corruption; uncut, all of them. |
| `WriteBatches.OpsRoundTrip` | ANSWR/Pods/leveldb-library/db/write_batch.cc:42-80 | Encoded operations read back as exactly those operations. |
| `WriteBatches.BatchInNumbers` | ANSWR/Pods/leveldb-library/db/write_batch.cc:5-14 | A batch is the sequence number in eight bytes, the count in four, lowest byte first, and the records. |
| `WriteBatches.OpInNumbers` | ANSWR/Pods/leveldb-library/db/write_batch.cc:98-109 | A record starts with 1 for a value and 0 for a deletion, and has the key and the value with their lengths. |
| `WriteBatches.WriteBatch.Append` | ANSWR/Pods/leveldb-library/db/write_batch.cc:144-150 | The destination gains the source's operations after its own, also when a batch is appended to itself. |
| `WriteBatches.WriteBatch.InsertInto` | ANSWR/Pods/leveldb-library/db/write_batch.cc:132-137 | Hands on exactly the batch's operations, numbered from its sequence. |
| `WriteBatches.Iterate` | ANSWR/Pods/leveldb-library/db/write_batch.cc:42-80 | Whatever the bytes, the operations before the first error are handed on and the status names the error, a wrong count included. |
| `Coding.VarintRoundTrip` | ANSWR/Pods/leveldb-library/util/coding.cc:47-157 | A varint followed by anything reads back as its value and length. |
| `Coding.VarintIsVarint` | ANSWR/Pods/leveldb-library/util/coding.cc:81-90 | The bytes of a varint make up the number in groups of seven bits, all but the last with the high bit, the last not zero unless alone. |
| `Coding.VarintIsUnique` | ANSWR/Pods/leveldb-library/util/coding.cc:81-90 | No other bytes do. |
| `Coding.VarintCut` | ANSWR/Pods/leveldb-library/util/coding.cc:112-128 | No proper prefix of a varint is one. |
| `Coding.EncodeVarint32IsVarint` | ANSWR/Pods/leveldb-library/util/coding.cc:47-73 | The unrolled encoder writes the same bytes as the loop. |
| `Coding.GetVarint64` | ANSWR/Pods/leveldb-library/util/coding.cc:142-169 | The loop returns the value modulo 2^64 and consumes exactly its bytes, or fails and consumes nothing. |
| `Coding.Fixed32RoundTrip` | ANSWR/Pods/leveldb-library/util/coding.h:60-72 | A fixed 32-bit value followed by anything reads back. |
| `Coding.Fixed32InNumbers` | ANSWR/Pods/leveldb-library/util/coding.cc:9-18 | The four bytes are the digits of the number in base 256, lowest first. |
| `Coding.Fixed64InNumbers` | ANSWR/Pods/leveldb-library/util/coding.cc:20-33 | The same for eight bytes. |
| `Coding.PrefixRoundTrip` | ANSWR/Pods/leveldb-library/util/coding.cc:171-191 | A length-prefixed slice followed by anything reads back. |
| `Coding.UnmaskUndoesMask` | ANSWR/Pods/leveldb-library/util/crc32c.h:29-38 | Unmasking undoes masking for every 32-bit checksum; masking rotates by 15 bits and adds 2726488792. |
| `GroupCommit.BuildBatchGroup` | ANSWR/Pods/leveldb-library/db/db_impl.cc:1260-1306 | The group is the longest front of the queue that may join, and its batch is their operations in order; it does not pass 1 MB unless the leader alone does, nor 128 KB more than a leader of at most 128 KB. |
| `GroupCommit.StepKeepsInv` | ANSWR/Pods/leveldb-library/db/db_impl.cc:1185-1256 | Every step of every interleaving keeps the invariant of queue, groups and outcomes. |
| `GroupCommit.OkMeansDone` | ANSWR/Pods/leveldb-library/db/db_impl.cc:1213-1256 | A writer told OK is in a group that was logged, is in the memtable whole and, if it asked for it, was synced. |
| `GroupCommit.NoneAfterFailedSync` | ANSWR/Pods/leveldb-library/db/db_impl.cc:1218-1232 | Once a group has failed to sync, it is the last one, and every writer told OK was in a group before it. |
| `GroupCommit.QueueOrder` | ANSWR/Pods/leveldb-library/db/db_impl.cc:1185-1256 | Writers are taken in the order they came, each in at most one group; groups number their operations consecutively, failed ones included. |
| `GroupCommit.ReadersSeeWholeGroups` | ANSWR/Pods/leveldb-library/db/db_impl.cc:1213-1237 | If one operation of a group is visible at the last sequence, all of the group are. |
| `PbRoundTrip.RoundTrip` | ANSWR/Pods/nanopb/pb_decode.c:925-1087 | For every well-formed descriptor and message that encodes: decoding the encoding succeeds if and only if every string sent has its NUL, and then gives the same message up to what unset fields hold. |
| `PbRoundTrip.UnterminatedStringIsLost` | ANSWR/Pods/nanopb/pb_decode.c:1468-1500 | A concrete message that encodes and whose encoding does not decode. |
| `PbRoundTrip.Varint32Reads` | ANSWR/Pods/nanopb/pb_decode.c:187-247 | The lenient 32-bit reader reads back every encoded 32-bit value. |
| `PbRoundTrip.MessageArrives` | ANSWR/Pods/nanopb/pb_decode.c:406-480 | What the decoder makes of the fields sent, over the defaults, is the same message. |
| `PbEncode.GetEncodedSize` | ANSWR/Pods/nanopb/pb_encode.c:567-577 | The sizing pass fails exactly if there is no encoding and counts exactly its bytes. |
| `PbEncode.EncodeToBuffer` | ANSWR/Pods/nanopb/pb_encode.c:528-550 | Encoding into a buffer succeeds exactly if there is an encoding and it fits, writes it, and never finds that a submessage changed its size. |
| `PbWire.MessageIsWire` | ANSWR/Pods/nanopb/pb_encode.c:528-550 | The encoding is the message on the wire: its fields in the descriptor's order, stated in numbers. |
| `PbWire.SlotIsWire` | ANSWR/Pods/nanopb/pb_encode.c:341-426 | For a field that is sent, the varint of 8 times the tag plus 0, 1, 2 or 5, and the payload; for an unset optional, another union member, an empty array or a proto3 zero, nothing. |
| `PbWire.ItemIsWire` | ANSWR/Pods/nanopb/pb_encode.c:769-914 | Payloads in numbers: 0 or 1; n, n + 2^64, 2n or -2n - 1 as a varint; four or eight bytes lowest first; a length and that many bytes. |
| `PbWire.TaggedIsWire` | ANSWR/Pods/nanopb/pb_encode.c:669-706 | The key is the varint of 8 times the tag plus 1 for fixed64, 5 for fixed32, 2 for bytes, strings and submessages, 0 for the others. |
| `PbWire.PackedIsWire` | ANSWR/Pods/nanopb/pb_encode.c:147-236 | An array of numbers is one field with key 8 times the tag plus 2, the length, and the items without keys. |
| `PbWire.ZeroIsNothing` | ANSWR/Pods/nanopb/pb_encode.c:240-337 | A proto3 singular field is left out exactly if it is zero, empty, or a submessage of which nothing is sent. |
| `PbEncode.EncodeDelimited` | ANSWR/Pods/nanopb/pb_encode.c:552-555 | The delimited form is the length and the encoding, if both fit. |
| `PbEncode.EncodesFrom` | ANSWR/Pods/nanopb/pb_encode.c:147-426 | There is an encoding exactly if every count, size and string is within its capacity. |
| `PbEncode.OStream.Write` | ANSWR/Pods/nanopb/pb_encode.c:103-124 | Writes or only counts; fails exactly if the bytes do not fit. |
| `PbEncode.OStream.EncodeSubmessage` | ANSWR/Pods/nanopb/pb_encode.c:717-765 | Sizing, then writing: the bytes are the length-prefixed encoding, and the two passes agree at every depth. |
| `PbEncode.OStream.EncodeField` | ANSWR/Pods/nanopb/pb_encode.c:341-426 | Each field kind writes exactly its encoding or fails. |
| `PbEncode.OStream.EncodePacked` | ANSWR/Pods/nanopb/pb_encode.c:160-210 | The packed form's announced length is the length of what follows. |
| `PbEncode.ZigZagRoundTrip` | ANSWR/Pods/nanopb/pb_encode.c:630-639 | Zigzag undone is the identity on 64-bit integers. |
| `PbCommon.FieldIter.Find` | ANSWR/Pods/nanopb/pb_common.c:78-97 | The cyclic search finds the field with the tag exactly if there is one, from any position. |
| `PbStream.DecodeBuffer` | ANSWR/Pods/nanopb/pb_decode.c:1075-1087 | Decoding a buffer computes the specified result for any input bytes. |
| `PbForward.UnknownFieldIsSkipped` | ANSWR/Pods/nanopb/pb_decode.c:321-331 | A field with an unknown tag changes nothing: any varint, eight bytes, a length and that many bytes, or four bytes are skipped, whatever follows. |
| `PbForward.OtherKindsAreRefused` | ANSWR/Pods/nanopb/pb_decode.c:329-329 | An unknown field of type 3, 4, 6 or 7 makes decoding fail. |
| `PbForward.ForwardCompatible` | ANSWR/Pods/nanopb/pb_decode.c:957-985 | What a sender with more fields encodes decodes to what the fields the receiver has encode to, and is the same message, unless a string of these lacks its NUL. |
| `PbAccept.LastOneWins` | ANSWR/Pods/nanopb/pb_decode.c:406-480 | Of two values of one field the last one counts, whatever the member held before; in a union, whichever member it was. |
| `PbAccept.OrderDoesNotMatter` | ANSWR/Pods/nanopb/pb_decode.c:957-1020 | Two fields may come in either order. |
| `PbAccept.ItemIsAppended` | ANSWR/Pods/nanopb/pb_decode.c:425-470 | An array item with its own key is appended, numbers included, unless the array is full, and then decoding fails. |
| `PbAccept.RunIsAppended` | ANSWR/Pods/nanopb/pb_decode.c:425-460 | A packed run is appended to the items that are there, or refused if the array cannot take all of it. |
| `PbAccept.BytesFit` | ANSWR/Pods/nanopb/pb_decode.c:1431-1501 | Bytes up to the capacity arrive, strings up to one byte less, arrays of fixed length exactly or empty; others are refused. |
| `PbAccept.SubmessageContinues` | ANSWR/Pods/nanopb/pb_decode.c:1503-1524 | A submessage is read on top of what is there, in an array or a union on top of its defaults. |
| `PbAccept.SignExtendedReads` | ANSWR/Pods/nanopb/pb_decode.c:187-247 | The 32-bit reader takes a negative number extended to 64 bits as its low 32 bits. |
| `PbAccept.TooLargeIsRefused` | ANSWR/Pods/nanopb/pb_decode.c:241-245 | It refuses a number of 33 to 35 bits. |
| `PbAccept.NumbersInRangeFit` | ANSWR/Pods/nanopb/pb_decode.c:1366-1412 | A number arrives exactly if the field's width can hold it, and is refused otherwise. |
| `PbAccept.SignedNumbersFit` | ANSWR/Pods/nanopb/pb_decode.c:1329-1364 | A signed number of at most 32 bits may come with or without sign extension to 64 bits. |
| `PbAccept.EmptyMessage` | ANSWR/Pods/nanopb/pb_decode.c:1040-1073 | Nothing at all decodes to the defaults exactly if no field is required. |
| `PbStream.IStream.DecodeStatic` | ANSWR/Pods/nanopb/pb_decode.c:406-480 | Each field kind reads exactly as specified, packed and unpacked. |
| `PbStream.IStream.DecodeVarint32` | ANSWR/Pods/nanopb/pb_decode.c:187-253 | The loop reads the specified value or fails. |
| `PbStream.IStream.DecodeVarint` | ANSWR/Pods/nanopb/pb_decode.c:255-276 | The loop reads a varint of up to ten bytes modulo 2^64 or fails. |
| `PbStream.CheckRequired` | ANSWR/Pods/nanopb/pb_decode.c:1040-1068 | The word-wise test of the bitmap says whether every required field up to 64 was seen. |

## Findings

Three properties do not hold of the code without a condition.

| property | input for which it fails | exactly when it holds |
|---|---|---|
| A compaction preserves reads | `StraddlingRuns.RunResurrects`, `CompactionReads.StraddlingKeyResurrects`: level 3 holds a file that ends with the deletion of key 5 and a next file that starts with its older value; a new value of key 1 in level 2 makes the first file an input and not the second. `SetupOtherInputs` closes only the upper inputs on shared user keys, so the deletion is dropped and the old value returns. The engine reaches this version (`RunReachesStraddling`), and its own selection picks these inputs (`PickStraddling`). | `CompactionReads.CompactionPreservesReads`: if and only if no deletion marker that is dropped has an older value of its key in a file of the output level outside the inputs. `DbImpl.DBImpl.DoCompaction` and `BackgroundCompaction` carry the same condition; `ClosedEdgesPreventResurrection` gives one on boundary keys alone. |
| A message decodes to itself | `PbRoundTrip.UnterminatedStringIsLost`: a required string field of one character, holding "A" with no room for its NUL. The encoder sends it, the decoder refuses it. | `PbRoundTrip.RoundTrip`: decoding succeeds if and only if every string that is sent has its NUL. |
| A decoded version edit is the one encoded | `VersionEdits.RoundTrip`: any edit decoded into one that already has compaction pointers, which `Clear` does not drop. | The result is the encoded edit with its pointers after those already there; it is the encoded edit if there were none. |

## Left out

- LsmSteps.StepKeepsInv: one write is in progress at a time and its log append succeeds. That the last sequence also advances past a batch whose append failed is in `GroupCommit` (`Finish`, `QueueOrder`) and not in the engine's state machine.
- LsmRuns.CrashDuringRecovery: a crash during recovery is not a step of the state machine; the lemma says instead that what it leaves on disk does not matter to the next recovery.
- DbImpl.DBImpl.Recover: the manifest and the logs are sequences of records; that records survive as bytes is `VersionEdits.RoundTrip`, `WriteBatches.OpsRoundTrip` and `Logs.RoundTrip`, which stand beside it.
- DbImpl.DBImpl.Write: background errors, write stalls and the queue of writers are not here; `GroupCommit` has the queue and the errors.
- DbImpl.DBImpl.MakeRoomForWrite: whether the memtable is full is a parameter, and the waits of the loop are left out.
- InputSelection.PickCompaction: which file is due (scores, seek counts, compaction pointers) is left open.
- CompactionWork.DoCompactionWork: keys that do not parse, shutting down, and flushing the memtable in the middle of the loop are left out; where outputs are cut is left open.
- Replays.RecoverLogFile: reusing the last log or the old manifest (`reuse_logs`) and corrupted records are left out.
- Blocks.BlockBuilder.Add: asks that offsets and lengths fit 32 bits, as the format does.
- Tables.TableBuilder.Finish: the filter's guarantee asks that filter offsets fit 32 bits; block sizes, compression, the footer and file errors are left out, and blocks are read as they were written.
- Tables.InternalGet: the block cache and `TableCache` are left out.
- Bloom.CreateFilter: the number of probes, which the source computes in floating point, is a parameter from 1 to 30.
- LruCache.LRUCache.Insert: the two linked lists and the hash chains are sequences; one shard is modelled, with the hash of a key as part of its name.
- SkipLists.SkipList.Insert: pointer stores are atomic and seen in order; random heights are a parameter.
- Logs.RoundTrip: reading starts at offset zero; damage other than truncation is answered but not characterised.
- GroupCommit.QueueOrder: writers without a batch, used to force a flush, are left out.
- VersionEdits.VersionEdit.DecodeFrom: the text of error messages is left out.
- WriteBatches.WriteBatch.Put: asks that the count and the lengths fit 32 bits, as the format does.
- PbRoundTrip.RoundTrip: is about encodings shorter than 2^32 bytes, as lengths are read back into 32 bits; what lies after a string's NUL, in the unused tail of an array and in unset optional fields is not compared.
- PbEncode.EncodesFrom: sizes are unbounded numbers, so wrap-around of `size_t` is left out.
- PbStream.DecodeBuffer: callbacks, extensions, pointer fields, fixed-count arrays and null-terminated messages are left out, as is which error message is set.
- PbCommon.FieldIter.Find: fields are numbered slots in place of raw struct offsets.
- User keys in the engine's modules are integers in the comparator's order; on bytes the order is in `Comparator.dfy` and `MemEntries.dfy`.
- Previous log numbers (always zero here), comparator names, `RepairDB`, `GetProperty`, statistics and read sampling.
- Files, directories, locks, clocks and threads, other than the steps named above.
- The Swift application, its views, Firebase and Core Data calls, and the Objective-C pods.
