# Verified models of the LevelDB storage engine and the nanopb codec

The repository is an iOS login application whose substantial code is vendored under
`FirebaseLogin/Pods`: the LevelDB key-value store and the nanopb Protocol Buffers codec. This
project models both in Dafny and proves what they are for. `dafny verify dfyconfig.toml`
checks everything.

## What is proved

**The storage engine means what it should.** The specification is a list of operations; a read
of a key at sequence `s` is the last of the first `s` operations on it (`Meaning`). The engine
is a state machine over that (`Engine`): writes enter the memtable one entry at a time and are
then published, the memtable is switched out, flushed to a level the placement rule allows,
files are picked, completed, merged, filtered, cut, installed, or moved. In every state of every
run the levels from 1 on are sorted and disjoint, whatever is searched earlier is newer key by
key, and every read from the oldest live snapshot up gives the answer of the specification
(`EngineInvariant.RunsKeepInv`). Reads pin their memtables and version, so they keep their answer
while everything else goes on (`Database.GetDuringRun`). An iterator (`IteratorMeaning.NewIterator`) is the user's view of a
merging iterator over the memtables and files of a state, shows the same map, and goes on showing it in both
directions while writes insert into the memtable under it (`DbIterator.DBIter.Grow`, `IteratorMeaning.InsertGrows`).

**Four hypotheses, each exact.** The code does not keep this unconditionally.

- `AddBoundaryInputs` runs for the compacted level but not for the next one, so a user key can be
  split between an input file of the next level and the file behind it. A deletion dropped from
  the input file can then bring back the value in the other. `Scenarios.DeletedKeyReturnsInRun`
  is a run from the empty database in which that happens, with outputs cut by the size limit around a user key of two
  megabytes; `CompactionMeaning.InstallKeepsReadsIff` says
  exactly when, and `InstallKeepsReads` gives a guard on file metadata that excludes it.
- A memtable flushed while a compaction runs is placed by looking at the files, not at the
  compaction's outputs, and can land between the inputs at the output level.
  `Scenarios.FlushAmongInputsInRun` is a run after which two files of a level overlap.
  `Clearance.EveryCutClearIff` says exactly when no output can overlap, before the loop writes any and wherever it cuts: for
  each file left out of the output level, all surviving entries are before it or all behind it.
  `Installing.InstallKeepsOrderIff` says the same of given outputs, and `RoomKeepsClear` and `FlushKeepsJob` give a
  sufficient guard on file metadata.
- With `reuse_logs` a reopened database goes on at the full length of its last log, behind what a crash
  left of a record. The reader takes the torn fragment and what was written behind it for one, and drops
  the rest of the block. `LogReuse.ReusedLogIff` says when everything reads back: exactly if nothing was
  written on, the cut is at the edge of a fragment, or the writer moves to the next block by itself;
  `WriteBehindTearIsLost` is an input on which a later record is lost.
- With `reuse_logs` a small manifest is gone on with in the same way, and there a report makes the next recovery fail.
  `Manifests.ReusedManifestIff` says when it opens with all its edits: exactly if nothing was written on, the cut is at the edge
  of a fragment with no record begun, or it left next to nothing of a header at the end of a block
  (`QuietReuse.GoesOnQuietly`). `EditBehindTearIsLost` is an input on which an edit is silently lost,
  `EditInsideRecordFails` one on which the database no longer opens.

The state machines take these as guards: `NoResurrection` and `OutputsClear` (`Engine`) on the step that ends a
compaction; and in `Durability.Recovered` that the log and the manifest gone on with do not end inside a fragment or a
record, for the manifest also in a recovery that crashes while noting its edit (`AbortRecovery`).
`Recovery.Recover` does what the code does in either case, and says that its result is a step of
the state machine if and only if it reused neither a torn log nor a torn manifest.

**Nothing acknowledged is lost, under the third and fourth guard.** `Durability` and `Recovery` put logs, the manifest's
counters, table files, obsolete-file deletion, pinned versions and crashes around the engine: crashes also in the
middle of a log record, of a manifest edit whose counters were fixed before other writers went on, and of a recovery. Along
every run in which neither a log nor a manifest is gone on with that ends inside a fragment or a record, the
published history only grows, and a crash adds at most the whole group in flight (`Recovery.AcknowledgedStays`). The
bytes are carried along: in every state of every run each log file reads back as the records the state
machine says it has (`LogFiles.FilesReadBack`), and the manifest opens, without a report, to the version and counters of
that state (`ManifestFiles.ManifestReadsBack`, `OpenPages`).
`WriterQueue` is the group-commit queue with one program counter per thread; each of its steps is a
step of that database, and `QueueRefinement.SystemRunsKeepInv` covers all runs of both together.

**Compactions and flushes do what their limits say.** The outputs of a compaction end exactly where a file is full or where
the grandparents passed since the last stop exceed their limit, so none straddles more of them than that
(`Compactions.DoCompactionWork`, `StopRules`); the inputs are closed over boundary files and grow exactly when that fits
(`InputSelection.SetupOtherInputs`); a file moves down exactly when it is alone and little below overlaps it; and a flushed
memtable goes exactly as deep as the placement rule lets it (`Database.DBImpl.CompactMemTable`).

**Formats round-trip.** Log files cut after any byte (`LogReading.TruncatedLog`), also after having been written on
(`LogReuse`), and on any bytes at all no record is read that does not stand there with its checksums
(`LogIntegrity.NothingMadeUp`); the write batches in them (`WriteBatches.CrashKeepsWholeBatches`), prefix-compressed
blocks (`BlockReading`), version edits (`EditCoding`), and the four-stride CRC32C
against the shift register of section 12.1 of RFC 3720 (`Crc32c.ExtendFast`). Table files from the first
record to the footer: what `TableBuilding` writes is a table (`IsTableFile`), and a point lookup
on the bytes of one, through footer, index block, Bloom filter and one data block (`TableFiles.InternalGet`), finds
what the engine's lookup finds (`KeyEmbedding.GetIsLookup`); so does one on the entries of a memtable (`MemTables`).

**In-memory structures.** The skip list, with every state between two pointer stores and a
search interleaved with them (`SkipLists.ConcurrentSearch`), and the LRU cache with its hash table
(`HandleTables`, `LruCaches`).

**nanopb.** Encoder and decoder of nested messages over field descriptors. The sizing pass always
equals the bytes written (`PbEncoding.EncodeSubmessage`), and decoding gives the message back, up to the contents of
absent fields, if and only if every text leaves room for its terminator (`PbRoundTrip.RoundTripIff`). A reader without the
schema splits every encoding into its fields (`PbScanning.EncodingScans`); reader and writer need not know the same members
(`PbEvolution.EvolvedReadsBackIff`); messages and submessages that come in parts are merged (`PbMerging`); and no bytes at all
make a decoded struct larger than its arrays (`PbCapacity.DecodedHasRoom`).

## How it is modelled

- User keys of the engine are reals. Byte strings are countable, so every total order a user
  comparator can define on them embeds in the rationals. For the bytewise comparator the embedding
  is given (`KeyEmbedding.EmbedOrder`), and connects the formats, which work on bytes, with the engine.
- What the source updates in place is a class or a state with the source's fields: `DBImpl`, `Compaction`,
  `Builder`, the iterators, builders, readers and writers, `MemTable`, `HandleTable`, `LRUCache`,
  `SkipList`, the nanopb streams and field iterator. Each method is tied to a function or a step of its specification.
- Sizes, time, randomness and hashing are parameters: how large a table is, which file is picked, when a memtable is
  full, skip-list heights and hash values may be anything.
- A file is a sequence of bytes. The state machine of `Durability` speaks of records and counters, and `LogFiles` and
  `ManifestFiles` show that the bytes say the same.

Where code and documentation differ, the code is followed: `VersionEdit::Clear` does not clear
the compact pointers although its name and use suggest a fresh edit (`EditCoding.EditRoundTripIff`); nanopb encodes a
text that fills its buffer although it can never decode it (`PbRoundTrip.FullBufferIsLost`); the length check of a
block entry adds in 32 bits, so it lets an entry through that runs past the block exactly when the sum of its lengths
reaches 2^32 (`Blocks.OverrunsIff`, `Blocks.WrappedIsAccepted`).

Modules follow the program: `InternalKeys`, `Meaning` (specification); `Files`, `Versions`,
`InputSelection`, `Runs`, `StopRules`, `Compactions`, `Edits`, `Installing`, `Clearance`, `CompactionMeaning`, `Flushing`, `Manifests`
(version_set.cc and the compaction loop); `Engine`, `EngineInvariant`, `Scenarios`, `Database`, `Durability`, `Recovery`,
`LogFiles`, `ManifestFiles`, `WriterQueue`, `QueueRefinement` (db_impl.cc); `Iterators`, `Merging`, `DbIterator`, `TwoLevel`,
`IteratorMeaning`; `Crc32c`, `Masking`, `Coding`, `LogFormat`, `LogReading`, `LogIntegrity`, `LogReuse`, `QuietReuse`, `LogAppending`, `WriteBatches`, `Blocks`, `BlockReading`,
`Separators`, `Filters`, `Tables`, `TableFormat`, `TableFiles`, `TableBuilding`, `KeyEmbedding`, `EditCoding` (formats);
`MemTables`, `HandleTables`, `LruCaches`, `SkipLists`; and the `Pb` modules (nanopb).

## Model

| member | source | states |
|---|---|---|
| `InternalKeys.LessTotal` | FirebaseLogin/Pods/leveldb-library/db/dbformat.cc:51-67 | The internal-key order (user key up, then packed sequence and type down) is a strict total order on all keys. |
| `Meaning.NewestExists` | FirebaseLogin/Pods/leveldb-library/db/version_set.cc:326-421 | In any set of entries, a user key with an entry visible at a snapshot has a newest visible entry, so a read of the flat specification is defined. |
| `Meaning.ReadAgrees` | FirebaseLogin/Pods/leveldb-library/db/version_set.cc:326-421 | Two entry sets that agree on the entries of a key up to a snapshot answer a read there alike. |
| `Meaning.DroppedNewest` | FirebaseLogin/Pods/leveldb-library/db/db_impl.cc:936-963 | If the newest visible entry of a key is itself dropped, it is an obsolete deletion, the read was absent before, and afterwards it is whatever the entries outside the compaction hold below it. |
| `Meaning.NothingKeptBelow` | FirebaseLogin/Pods/leveldb-library/db/db_impl.cc:936-963 | Below a dropped obsolete deletion no input entry of that key survives the drop rules. |
| `Meaning.DropRulesKeepReadsIff` | FirebaseLogin/Pods/leveldb-library/db/db_impl.cc:890-999 | For every input set and every rest of the database: dropping hidden and obsolete entries keeps every read at every snapshot from the smallest one up if and only if no dropped deletion exposes an older value outside the inputs. |
| `Meaning.SpecReadPrefix` | FirebaseLogin/Pods/leveldb-library/db/db_impl.cc:1100-1145 | The reference read at operation number s depends only on the first s operations. |
| `Engine.SmallestIsOldest` | FirebaseLogin/Pods/leveldb-library/db/db_impl.cc:890-894 | The smallest snapshot of a compaction is a live snapshot or the last sequence number, and no live snapshot is smaller. |
| `Files.LookupFindsNewest` | FirebaseLogin/Pods/leveldb-library/db/memtable.cc:100-133 | One seek to (user key, snapshot) in a sorted run and a check of the user key found there gives the newest visible entry, and finds nothing exactly when no entry is visible; the bytes of that seek are those of MemTables. |
| `Files.FindFile` | FirebaseLogin/Pods/leveldb-library/db/version_set.cc:88-106 | Binary search: all files before the result end before the key, and the file at the result does not. |
| `Files.SomeFileOverlapsRange` | FirebaseLogin/Pods/leveldb-library/db/version_set.cc:108-157 | Answers true exactly when some file overlaps the user-key range, on the linear path and on the binary-search path, for open and closed range ends. |
| `Files.GetOverlappingInputs` | FirebaseLogin/Pods/leveldb-library/db/version_set.cc:519-559 | Above level 0: exactly the overlapping files, in order. In level 0 the restarts terminate, and the result is exactly the files overlapping the least overlap-closed range that contains the start. |
| `Files.SelectedSorted` | FirebaseLogin/Pods/leveldb-library/db/version_set.cc:519-559 | Selecting by range keeps a sorted level sorted. |
| `Files.SelectedContiguous` | FirebaseLogin/Pods/leveldb-library/db/version_set.cc:519-559 | No file of a level lies between two files selected by a range and is itself left out. |
| `Files.FindLargestKey` | FirebaseLogin/Pods/leveldb-library/db/version_set.cc:1326-1340 | The largest key of the files, and nothing exactly when there are no files. |
| `Files.FindSmallestBoundaryFile` | FirebaseLogin/Pods/leveldb-library/db/version_set.cc:1344-1362 | The boundary file with the smallest start; nothing exactly when there is no boundary file. |
| `Files.AddBoundaryInputs` | FirebaseLogin/Pods/leveldb-library/db/version_set.cc:1378-1401 | Terminates with the chosen files followed by one boundary file of the level after the other, each the one that starts first in the user key in which those before it end, until none is left; without gaps. |
| `Files.GetRange` | FirebaseLogin/Pods/leveldb-library/db/version_set.cc:1205-1224 | The least first key and the greatest last key of a non-empty list of files. |
| `Versions.LevelZeroCandidates` | FirebaseLogin/Pods/leveldb-library/db/version_set.cc:282-298 | Exactly the level-0 files whose range contains the user key, by descending file number. |
| `Versions.SortedLevelCandidate` | FirebaseLogin/Pods/leveldb-library/db/version_set.cc:306-323 | The first file that does not end before the lookup key, unless it starts behind the user key; it decides the whole sorted level: nothing visible in it means nothing visible in the level, and its newest entry is the level's newest. |
| `Versions.SearchLevel` | FirebaseLogin/Pods/leveldb-library/db/version_set.cc:282-324 | Searching a level file by file and stopping at the first hit finds the newest visible entry of that level, or nothing exactly when none is visible. |
| `Versions.FirstLevelWins` | FirebaseLogin/Pods/leveldb-library/db/version_set.cc:326-421 | Under the level order, the newest entry of the first level that has a visible one is the newest of the whole version. |
| `Versions.Get` | FirebaseLogin/Pods/leveldb-library/db/version_set.cc:326-421 | Stopping at the first level with an answer returns the newest entry with sequence at most the snapshot over all entries of the version, and nothing exactly when no entry is visible. |
| `InputSelection.PickCompaction` | FirebaseLogin/Pods/leveldb-library/db/version_set.cc:1270-1322 | From any file: above level 0 that file alone; in level 0 the least overlap-closed set around it. The result may be compacted (contiguous, or apart from everything left out). |
| `InputSelection.CutAtSize` | FirebaseLogin/Pods/leveldb-library/db/version_set.cc:1476-1487 | The shortest prefix of the files that reaches the size limit, or all of them. |
| `InputSelection.CompactRange` | FirebaseLogin/Pods/leveldb-library/db/version_set.cc:1464-1495 | Empty exactly when no file overlaps the range; in level 0 the least closed set, above it the shortest prefix of the overlapping files that reaches the limit; the result may be compacted. |
| `InputSelection.CloseOverBoundary` | FirebaseLogin/Pods/leveldb-library/db/version_set.cc:1403-1412 | The chosen files and their boundary files, and then every file left out of the level is newer, key by key, than every chosen file. |
| `InputSelection.SetupOtherInputs` | FirebaseLogin/Pods/leveldb-library/db/version_set.cc:1403-1462 | The inputs are exactly the chosen files closed over boundary files, with the files of the next level that overlap their hull, grown where that fits; they leave only newer files behind at their level. |
| `InputSelection.GrowInputs` | FirebaseLogin/Pods/leveldb-library/db/version_set.cc:1419-1447 | The inputs grow to all files of the level over their whole range, closed over boundary files, if and only if that takes more files of the level, as many of the next one, and stays under the byte limit; either way they remain fit to be compacted. |
| `InputSelection.ChosenLeaveNewer` | FirebaseLogin/Pods/leveldb-library/db/version_set.cc:1378-1412 | For a contiguous selection of a sorted level (or a closed one of level 0) with no boundary file left out, every left-out file is newer than every chosen one for each shared user key. |
| `InputSelection.EarlierIsNewer` | FirebaseLogin/Pods/leveldb-library/db/version_set.cc:1344-1362 | In a sorted level, of two files sharing a user key the earlier file holds the newer entries. |
| `Runs.MergeSorted` | FirebaseLogin/Pods/leveldb-library/table/merger.cc:148-161 | Merging two sorted runs without common keys gives a sorted run. |
| `Runs.MergeAllSorted` | FirebaseLogin/Pods/leveldb-library/db/version_set.cc:1237-1268 | The merge of any number of pairwise disjoint sorted runs is sorted (and, by the contract of MergeAll, holds exactly their entries). |
| `Runs.ConcatSortedLevel` | FirebaseLogin/Pods/leveldb-library/db/version_set.cc:223-228 | The files of a sorted level, one after another, are one sorted run. |
| `Compactions.Compaction.IsBaseLevelForKey` | FirebaseLogin/Pods/leveldb-library/db/version_set.cc:1533-1552 | Asked with non-decreasing keys, the forward-only pointers still answer exactly whether no file below the output level has a range containing the key. |
| `Compactions.HiddenByPrevious` | FirebaseLogin/Pods/leveldb-library/db/db_impl.cc:929-948 | In merged order an entry is hidden if and only if the entry just before it has the same user key and a sequence at most the smallest snapshot; this is what makes one remembered sequence number enough. |
| `Compactions.ShouldDrop` | FirebaseLogin/Pods/leveldb-library/db/db_impl.cc:936-963 | The drop decision holds exactly when the predecessor hides the entry or it is an obsolete deletion of a base-level key. |
| `Compactions.DoCompactionWork` | FirebaseLogin/Pods/leveldb-library/db/db_impl.cc:890-999 | For every merged input, size limit, grandparent limit and builder size: the outputs one after another are exactly the surviving entries in order; no output is empty or longer than the size limit makes it; each but the last was closed because it had reached that size, or because a stop falls behind its last key and not behind the next; no output goes over a stop, and so the grandparents that do not end before its first key but end before its last have at most the limit in bytes. |
| `Compactions.Compaction.ShouldStopBefore` | FirebaseLogin/Pods/leveldb-library/db/version_set.cc:1554-1577 | Asked with increasing keys: the grandparents passed are exactly those that end before the key, and it stops exactly when those passed since the last stop, but not those in front of the first key, have more bytes than the limit. |
| `Compactions.AddEntry` | FirebaseLogin/Pods/leveldb-library/db/db_impl.cc:968-990 | An entry joins the output, which is closed if that brings it to its size; entries and cuts stay right. |
| `Compactions.KeptAre` | FirebaseLogin/Pods/leveldb-library/db/db_impl.cc:890-999 | The kept entries are exactly the surviving entries of the input. |
| `Compactions.KeptSorted` | FirebaseLogin/Pods/leveldb-library/db/db_impl.cc:890-999 | The kept entries are sorted. |
| `StopRules.StraddledAreNeighbours` | FirebaseLogin/Pods/leveldb-library/db/version_set.cc:1554-1577 | In a sorted level the files that do not end before one key but end before another lie next to each other, so the forward scan counts exactly their bytes. |
| `StopRules.StraddledAreSelected` | FirebaseLogin/Pods/leveldb-library/db/version_set.cc:1449-1454 | The grandparents, selected by the range of all inputs, include every file of their level that an output can straddle. |
| `StopRules.StopDecided` | FirebaseLogin/Pods/leveldb-library/db/version_set.cc:1554-1577 | The counters of the scan decide at each key what the keys so far decide: a stop exactly when more than the limit was passed since the last stop or the first key. |
| `StopRules.OutputOverlap` | FirebaseLogin/Pods/leveldb-library/db/db_impl.cc:921-927 | An output that goes over no stop straddles at most the limit in bytes of grandparents, summed file by file. |
| `Edits.SaveLevel` | FirebaseLogin/Pods/leveldb-library/db/version_set.cc:695-737 | Merging base and added files of a level gives the ordered list of exactly the files not deleted. |
| `Edits.Builder.Apply` | FirebaseLogin/Pods/leveldb-library/db/version_set.cc:650-692 | Accumulates deletions, then additions, an added number being no longer deleted, level by level. |
| `Edits.Builder.SaveTo` | FirebaseLogin/Pods/leveldb-library/db/version_set.cc:695-754 | Every level becomes the ordered list of the base and added files that are not deleted. |
| `Edits.LogAndApply` | FirebaseLogin/Pods/leveldb-library/db/version_set.cc:801-822 | Applying one edit to the current version: its deletions gone, its additions in, the rest unchanged, in order. |
| `Edits.OrderedUnique` | FirebaseLogin/Pods/leveldb-library/db/version_set.cc:593-605 | A file list ordered by smallest key is determined by the files in it. |
| `Edits.Recover` | FirebaseLogin/Pods/leveldb-library/db/version_set.cc:937-1000 | Folding any list of edits through one builder gives the very file lists that the live database had after installing them one at a time, as long as a number added to a level twice names the same file. |
| `Manifests.RecoverManifest` | FirebaseLogin/Pods/leveldb-library/db/version_set.cc:886-1011 | From any bytes that read as the first m of a list of edits: nothing if the reader reports anything; else the version that the live database had after those edits, with the last log number, previous log number, next file number and last sequence that they set, and nothing exactly if one of the three needed counters was never set. |
| `Manifests.CutManifest` | FirebaseLogin/Pods/leveldb-library/db/version_set.cc:905-950 | A manifest cut after any number of bytes reads as exactly the edits wholly in front of the cut, without a report. |
| `Manifests.ReusedManifestIff` | FirebaseLogin/Pods/leveldb-library/db/version_set.cc:1013-1042 | A manifest cut anywhere and gone on with reads as all its edits, those in front of the cut and all later ones, without a report, if and only if none were written or it goes on quietly; otherwise edits are missing or there is a report, so that recovery fails. Up to a checksum collision. |
| `Manifests.EditBehindTearIsLost` | FirebaseLogin/Pods/leveldb-library/db/version_set.cc:1013-1042 | A family of inputs: an edit, the header and some bytes of a second, and a short edit written behind them after reopening; only the first is read, and nothing is reported. |
| `Manifests.EditInsideRecordFails` | FirebaseLogin/Pods/leveldb-library/db/version_set.cc:886-914 | A family of inputs: a crash at the edge of a block inside a long edit, and any edits written behind it; these are all read, but with a report, so the database does not open. |
| `Manifests.SnapshotIsVersion` | FirebaseLogin/Pods/leveldb-library/db/version_set.cc:1088-1114 | The files of a snapshot edit, applied to no files, give the version it was taken from, so a manifest may start with it. |
| `Installing.ReadyStartsJob` | FirebaseLogin/Pods/leveldb-library/db/version_set.cc:1403-1462 | Inputs completed by SetupOtherInputs satisfy everything the install proof needs of a job, and leave no file among them at the output level. |
| `Installing.EditReplaces` | FirebaseLogin/Pods/leveldb-library/db/db_impl.cc:860-876 | Applying the compaction's edit removes exactly the input files and adds exactly the outputs. |
| `Installing.InstallKeepsOrderIff` | FirebaseLogin/Pods/leveldb-library/db/db_impl.cc:860-876 | Of given outputs: installing them in the current version, flushes in between included, keeps levels sorted and disjoint and the whole level order if and only if no output overlaps a left-out file of the output level. |
| `Installing.RoomKeepsClear` | FirebaseLogin/Pods/leveldb-library/db/db_impl.cc:860-876 | As long as no file of the output level lies among the inputs, the outputs overlap no left-out file, whatever the loop writes and wherever it cuts. |
| `Clearance.EveryCutClearIff` | FirebaseLogin/Pods/leveldb-library/db/db_impl.cc:878-999 | Before the loop runs, and for every way to cut what survives: the outputs keep clear of the files left out of the output level if and only if, for each of these, all survivors are before it or all are behind it. |
| `Clearance.EveryInstallKeepsOrder` | FirebaseLogin/Pods/leveldb-library/db/db_impl.cc:860-876 | Under that condition every install of what the loop may write keeps the level order; without it there are outputs that no install of keeps it. |
| `Clearance.RoomIsClear` | FirebaseLogin/Pods/leveldb-library/db/db_impl.cc:878-999 | If no file of the output level lies among the inputs, the condition holds. |
| `CompactionMeaning.OlderIsStraddling` | FirebaseLogin/Pods/leveldb-library/db/version_set.cc:1403-1462 | An entry older than an input deletion of a base-level key can only be in a file of the output level that goes on with the user key in which an input file ends. |
| `CompactionMeaning.InstallKeepsReadsIff` | FirebaseLogin/Pods/leveldb-library/db/db_impl.cc:878-999 | Compaction meaning, exactly: with memtables on top, every read at every snapshot from the smallest one up is the same before and after the install if and only if no dropped deletion brings back the value at the start of a straddling file. |
| `CompactionMeaning.InstallKeepsReads` | FirebaseLogin/Pods/leveldb-library/db/version_set.cc:1403-1462 | A guard on file metadata: if no user key is split between an input file and a left-out file of the output level, all those reads are kept. |
| `CompactionMeaning.DeletedKeyReturns` | FirebaseLogin/Pods/leveldb-library/db/version_set.cc:1403-1415 | A version in order and inputs the selection accepts, after whose compaction, whatever files it writes, a key that was deleted reads as its old value, because boundary files are not added at the output level. |
| `Flushing.PickLevelForMemTableOutput` | FirebaseLogin/Pods/leveldb-library/db/version_set.cc:491-516 | The level is the first one, or else level 2, from which the rule forbids to go deeper: because level 0 overlaps the range, the next level does, or too many bytes of the one after do. |
| `Flushing.PlacedMeetsNone` | FirebaseLogin/Pods/leveldb-library/db/version_set.cc:491-516 | Placed above level 0 by that rule, a file meets no file at its level or before. |
| `Flushing.FlushKeepsOrder` | FirebaseLogin/Pods/leveldb-library/db/db_impl.cc:491-533 | Adding a flushed memtable at any level that rule allows keeps the whole level order. |
| `Flushing.FlushKeepsJob` | FirebaseLogin/Pods/leveldb-library/db/db_impl.cc:908-918 | A flush during a compaction leaves the running job sound, and leaves room for its outputs if it does not land among the inputs at the output level. |
| `Flushing.FlushAmongInputs` | FirebaseLogin/Pods/leveldb-library/db/db_impl.cc:908-918 | Two files under compaction, a flush between them that the placement rule allows, and the output of the compaction: each step is legal, the version is in order before the install, and afterwards two files of the output level overlap. |
| `Flushing.MoveKeepsOrder` | FirebaseLogin/Pods/leveldb-library/db/db_impl.cc:718-733 | A trivial move changes no entry and keeps the level order. |
| `EngineInvariant.ReadsFollow` | FirebaseLogin/Pods/leveldb-library/db/db_impl.cc:1185-1256 | If all operations after some point are present as entries, reads after that point follow the operation history. |
| `EngineInvariant.FlushKeeps` | FirebaseLogin/Pods/leveldb-library/db/db_impl.cc:535-566 | A flush step keeps the invariant (level order, layers ever older, every read right, job sound). |
| `EngineInvariant.FinishCompactionKeeps` | FirebaseLogin/Pods/leveldb-library/db/db_impl.cc:860-999 | The end of a compaction, with any steps since its start, keeps the invariant. |
| `EngineInvariant.StepKeepsInv` | FirebaseLogin/Pods/leveldb-library/db/db_impl.cc:535-999 | Every step (write begin, one insertion, publish, memtable switch, flush, compaction start and end, trivial move, snapshots, file numbers) keeps the invariant. |
| `EngineInvariant.RunsKeepInv` | FirebaseLogin/Pods/leveldb-library/db/db_impl.cc:535-1370 | In every state of every run from the empty database: levels from 1 on sorted and disjoint, whatever is searched earlier newer key by key, and every read from the oldest live snapshot up equal to the reference read of the history. |
| `Scenarios.CutBySize` | FirebaseLogin/Pods/leveldb-library/db/db_impl.cc:984-992 | With the default limits and a user key of two megabytes, the loop closes its output between the two entries of that key. |
| `Scenarios.DeletedKeyReturnsInRun` | FirebaseLogin/Pods/leveldb-library/db/version_set.cc:1403-1415 | A run from the empty database, with every flush placed and every output cut as the code does it, reaches a state in which a compaction may install a version where a deleted key reads as its old value. |
| `Scenarios.FlushAmongInputsInRun` | FirebaseLogin/Pods/leveldb-library/db/db_impl.cc:908-918 | Likewise a run reaches a state, in order, in which a compaction may install a version with two overlapping files on one level. |
| `Database.GetPinned` | FirebaseLogin/Pods/leveldb-library/db/db_impl.cc:1100-1145 | Memtable, then immutable memtable, then version, with the memtable possibly grown since they were pinned: the answer is the last of the first s operations on the key. |
| `Database.MemTableGrows` | FirebaseLogin/Pods/leveldb-library/db/db_impl.cc:1100-1145 | Along any run, until it is switched out, a memtable only gains entries above the last sequence of any earlier state. |
| `Database.GetDuringRun` | FirebaseLogin/Pods/leveldb-library/db/db_impl.cc:1100-1145 | A read that pins its state at one point of a run and searches at any later point before the memtable is switched out answers as of the pinned point, at the last sequence or any live snapshot. |
| `Database.MergedInput` | FirebaseLogin/Pods/leveldb-library/db/version_set.cc:1237-1268 | The merge of a job's input runs is sorted and holds exactly the entries of its input files. |
| `Database.GrandparentsSuffice` | FirebaseLogin/Pods/leveldb-library/db/version_set.cc:1449-1454 | What an output straddles of the whole level two below the inputs is what it straddles of the grandparents. |
| `Database.Grandparents` | FirebaseLogin/Pods/leveldb-library/db/version_set.cc:1449-1454 | The files two levels down that overlap the hull of all inputs. |
| `Database.DBImpl.Write` | FirebaseLogin/Pods/leveldb-library/db/db_impl.cc:1185-1256 | The invariant holds again and the history is extended by the group. |
| `Database.DBImpl.SwitchMemTable` | FirebaseLogin/Pods/leveldb-library/db/db_impl.cc:1336-1367 | Switches exactly when no immutable memtable exists, as the switch step of the engine. |
| `Database.DBImpl.CompactMemTable` | FirebaseLogin/Pods/leveldb-library/db/db_impl.cc:491-566 | Always a flush step of the engine (or the drop of an empty memtable), at the level the placement rule gives for the user keys of the file, with the size of the table; and the invariant holds. |
| `Database.DBImpl.StartCompaction` | FirebaseLogin/Pods/leveldb-library/db/db_impl.cc:688-767 | From any file of any level: the inputs are those the file is completed to, and it is moved if and only if it is the only one and little enough two levels below overlaps it; otherwise a job with them starts; as a step of the engine. |
| `Database.DBImpl.StartManualCompaction` | FirebaseLogin/Pods/leveldb-library/db/db_impl.cc:697-710 | Done exactly when no file of the level overlaps the range; otherwise a compaction starts with the files of the range, cut at the size limit, and completed. |
| `Database.DBImpl.RunCompaction` | FirebaseLogin/Pods/leveldb-library/db/db_impl.cc:878-999 | The output files of a job: exactly the survivors, numbered from the file counter on, with their sizes, each within the size limit and over at most the limit in bytes of the level two below its inputs, and cut nowhere but where a file is full or a stop falls. |
| `Database.DBImpl.FinishCompaction` | FirebaseLogin/Pods/leveldb-library/db/db_impl.cc:878-1010 | The outputs are those of RunCompaction; the new version is in order if and only if they are clear of left-out files; and when also no deleted value returns, it is the engine's step and all reads are right. |
| `Database.DBImpl.GetSnapshot` | FirebaseLogin/Pods/leveldb-library/db/db_impl.cc:1166-1169 | Hands out the last sequence and keeps it protected. |
| `Database.DBImpl.Get` | FirebaseLogin/Pods/leveldb-library/db/db_impl.cc:1100-1145 | At a held snapshot or the present, the answer is that of the operation history. |
| `Durability.SpanAppend` | FirebaseLogin/Pods/leveldb-library/db/db_impl.cc:1202-1215 | Appending the record of the next group keeps a log the exact list of operations from its start on. |
| `Recovery.DeleteKeeps` | FirebaseLogin/Pods/leveldb-library/db/db_impl.cc:223-278 | Deleting obsolete files keeps every log recovery needs, every table of the current, pinned and input versions and every pending output. |
| `Recovery.DeleteIsComplete` | FirebaseLogin/Pods/leveldb-library/db/db_impl.cc:223-278 | Deleting obsolete files leaves no other: a table stays if and only if a version in use or a pending output would miss it, and a log if and only if its number is not below the manifest's. |
| `Recovery.InsertBatch` | FirebaseLogin/Pods/leveldb-library/db/db_impl.cc:418-439 | Replaying one log record adds exactly its operations to the memtable. |
| `Recovery.ReplayRecords` | FirebaseLogin/Pods/leveldb-library/db/db_impl.cc:404-453 | Replaying the records of a log adds exactly its operations to the recovered state and raises the greatest sequence number to its last; a table of level 0 is written after each record that fills the memtable, and at the end the memtable holds exactly what came after the last such record. |
| `Recovery.RecoverLogFile` | FirebaseLogin/Pods/leveldb-library/db/db_impl.cc:371-489 | After each log the replay stands exactly behind it: the log is kept, with the memtable that it holds, if and only if it is the last, that is wanted and no record filled the memtable; otherwise everything is in tables. An edit becomes due exactly when a log with records is not kept. |
| `Recovery.NextLog` | FirebaseLogin/Pods/leveldb-library/db/db_impl.cc:334-362 | Taken in number order, each log to replay goes on exactly where the one before it ended. |
| `Recovery.RecoveredInv` | FirebaseLogin/Pods/leveldb-library/db/db_impl.cc:280-369 | The recovered state satisfies the engine invariant: reads follow the recovered history. |
| `Recovery.Recover` | FirebaseLogin/Pods/leveldb-library/db/db_impl.cc:280-489 | Opening from the disk alone (version and counters of the manifest, logs from its log number on) after a crash in any reachable state: the history is the published operations, and the in-flight group as a whole if its record was complete; the last sequence is its length; the last log is reused if and only if that is wanted and none of its records filled the memtable, and an edit names the log gone on with if and only if the manifest is new or a log with records is not kept; and the result is a step of the state machine if and only if no log was reused that ends inside a fragment and no manifest that ends inside a record. |
| `Recovery.Open` | FirebaseLogin/Pods/leveldb-library/db/db_impl.cc:1477-1510 | After the logs are replayed: a new log unless the last one is kept, and an edit with log number and counters exactly if there is something to note; a step of the state machine under exactly those two conditions. |
| `Recovery.AbortKeeps` | FirebaseLogin/Pods/leveldb-library/db/db_impl.cc:280-489 | A recovery that crashes before its edit is in the manifest, having written any tables, perhaps a new log, and perhaps a part of that edit to a manifest that was not torn, keeps the durable state complete. |
| `Recovery.EditKeeps` | FirebaseLogin/Pods/leveldb-library/db/version_set.cc:801-857 | Fixing the counters of an edit, and writing any part of it to the manifest while other threads go on, keeps the durable state complete. |
| `Recovery.HistoryGrows` | FirebaseLogin/Pods/leveldb-library/db/db_impl.cc:280-489 | No step loses a published operation; recovery, when neither a log nor a manifest is gone on with that ends inside a fragment or a record, adds at most the whole in-flight group, which it does if its record was logged. |
| `Recovery.DbStepKeepsInv` | FirebaseLogin/Pods/leveldb-library/db/db_impl.cc:223-566 | Every step of engine, log, manifest, files, crash and recovery keeps: each memtable is exactly what its log holds, no log from the manifest's log number on is missing, every table in use is on disk, the manifest's counters cover what is in tables even where they are older than the last writes; recovery under the guard that neither a log nor a manifest is gone on with that ends inside a fragment or a record. |
| `Recovery.DbRunsKeepInv` | FirebaseLogin/Pods/leveldb-library/db/db_impl.cc:223-566 | Those facts hold in every state of every run, crashes in the middle of a record or an edit and recoveries that crash included, under the same guard. |
| `Recovery.AcknowledgedStays` | FirebaseLogin/Pods/leveldb-library/db/db_impl.cc:280-489 | Along every run in which neither a log nor a manifest is gone on with that ends inside a fragment or a record, across any number of crashes, the published history of an earlier state is a prefix of that of a later one. |
| `LogAppending.AppendReads` | FirebaseLogin/Pods/leveldb-library/db/log_writer.cc:34-80 | On any file that ends at the edge of a fragment, a record appended by a writer that knows only its length is read back behind the others, and the file ends at an edge again. |
| `LogAppending.PartReads` | FirebaseLogin/Pods/leveldb-library/db/log_reader.cc:56-271 | A record of which only a part reached the file is not read, and changes nothing of what is, wherever the part ends. |
| `LogAppending.AppendReadsQuietly` | FirebaseLogin/Pods/leveldb-library/db/log_writer.cc:34-80 | On a file that reads without a report and has no record begun, a record appended as a whole is read back behind the others, still without a report. |
| `LogAppending.PartReadsQuietly` | FirebaseLogin/Pods/leveldb-library/db/log_reader.cc:56-271 | A part of a record behind such a file is neither read nor reported, wherever it ends. |
| `LogFiles.StepKeepsFaithful` | FirebaseLogin/Pods/leveldb-library/db/db_impl.cc:371-489 | Every step of the durable database, with what it does to the bytes of the logs, keeps: every log file reads back as its list of records, and every file not called torn ends at the edge of a fragment. |
| `LogFiles.FilesReadBack` | FirebaseLogin/Pods/leveldb-library/db/db_impl.cc:371-489 | In every state of every run, with crashes in the middle of a write and recoveries that crash, what is read from the bytes of every log file is the list of records that the state machine gives it. |
| `ManifestFiles.StepApplies` | FirebaseLogin/Pods/leveldb-library/db/version_set.cc:801-822 | What the state machine says a flush, a compaction or a move does to the version is what applying its edit gives. |
| `ManifestFiles.StepKeepsPages` | FirebaseLogin/Pods/leveldb-library/db/version_set.cc:801-1042 | Every step of the durable database, with what it does to the bytes of the manifest (parts of edits, whole edits, a new manifest with its snapshot), keeps: the bytes read without a report as edits that lead from no files to the current version and set its counters; and a manifest not called torn ends where one can go on. |
| `ManifestFiles.ManifestReadsBack` | FirebaseLogin/Pods/leveldb-library/db/version_set.cc:801-1042 | That holds in every state of every run, with crashes in the middle of an edit and recoveries that crash, under the guard of the state machine. |
| `ManifestFiles.OpenPages` | FirebaseLogin/Pods/leveldb-library/db/version_set.cc:886-1011 | Opening from the bytes of the manifest of any such state gives its version, log number, next file number and last sequence. |
| `WriterQueue.BuildBatchGroup` | FirebaseLogin/Pods/leveldb-library/db/db_impl.cc:1260-1306 | The group is the longest prefix of the queue without a sync request under a non-sync leader and within the size limit, and its operations are those of its batches in queue order. |
| `WriterQueue.GroupBytes` | FirebaseLogin/Pods/leveldb-library/db/db_impl.cc:1269-1306 | A group has at most 128 KB more than a leader of up to 128 KB, or at most 1 MB under a larger one, unless the leader alone has more; and the next writer is left out only because of its sync request or because the group would become larger than that. |
| `WriterQueue.CompleteGroup` | FirebaseLogin/Pods/leveldb-library/db/db_impl.cc:1239-1248 | Takes writers off the front up to the last one of the group. |
| `WriterQueue.GroupEndsAtLast` | FirebaseLogin/Pods/leveldb-library/db/db_impl.cc:1239-1248 | As no writer is in the queue twice, those taken off are exactly the group. |
| `WriterQueue.QueueStepKeepsInv` | FirebaseLogin/Pods/leveldb-library/db/db_impl.cc:1185-1256 | Every step of every thread, wakeups without cause and failed leaders included, keeps the queue invariant. |
| `WriterQueue.QueueRunsKeepInv` | FirebaseLogin/Pods/leveldb-library/db/db_impl.cc:1185-1256 | The invariant holds in every state of every interleaving. |
| `WriterQueue.OnlyFrontLeads` | FirebaseLogin/Pods/leveldb-library/db/db_impl.cc:1191-1214 | In every interleaving, whoever is past the waiting loop is the front of the queue, so two such threads are one. |
| `WriterQueue.LoggedOnceInOrder` | FirebaseLogin/Pods/leveldb-library/db/db_impl.cc:1202-1248 | The log is the accepted batches in arrival order, each once, then at most the present leader's group; records have contiguous disjoint sequence ranges. |
| `WriterQueue.ReadersSeeWholeGroups` | FirebaseLogin/Pods/leveldb-library/db/db_impl.cc:1202-1237 | At the last sequence a reader sees every entry of every finished group and none of the present one. |
| `WriterQueue.SyncIsHonoured` | FirebaseLogin/Pods/leveldb-library/db/db_impl.cc:1260-1306 | A writer that asked for a sync and returned with success is in a record whose leader synced the log. |
| `WriterQueue.FrontCanStep` | FirebaseLogin/Pods/leveldb-library/db/db_impl.cc:1191-1256 | No wakeup is lost: whenever the queue is not empty, its front can take a step. |
| `QueueRefinement.LeaderAfter` | FirebaseLogin/Pods/leveldb-library/db/db_impl.cc:1191-1253 | Who leads, and how far, changes only by the leader's own steps. |
| `QueueRefinement.QueueDrivesDatabase` | FirebaseLogin/Pods/leveldb-library/db/db_impl.cc:1185-1256 | Each queue step is the matching write step of the durable database (begin, log, insert, publish), or none, and the two states keep showing the same history and group. |
| `QueueRefinement.SystemStepKeepsInv` | FirebaseLogin/Pods/leveldb-library/db/db_impl.cc:1185-1256 | Whichever writer thread, background step, crash or recovery comes next, the invariants of queue, engine and files hold again and no published operation is lost; recovery under the guard that neither a log nor a manifest is gone on with that ends inside a fragment or a record. |
| `QueueRefinement.SystemRunsKeepInv` | FirebaseLogin/Pods/leveldb-library/db/db_impl.cc:1185-1256 | They hold, under that guard, in every state of every run that interleaves the threads of all writers with flushes, compactions, manifest writes, deletions, crashes and recoveries. |
| `QueueRefinement.CommittedStays` | FirebaseLogin/Pods/leveldb-library/db/db_impl.cc:1185-1256 | In every state of such a run the published history is what was recovered last, followed by the groups committed since, and stays a prefix of every later one. |
| `QueueRefinement.WriterStays` | FirebaseLogin/Pods/leveldb-library/db/db_impl.cc:1185-1256 | In such a run the operations of a writer whose call returned with success are in the published history of every later state, in one piece and at the same place, also after crashes. |
| `Merging.MergingIterator.FindSmallest` | FirebaseLogin/Pods/leveldb-library/table/merger.cc:148-161 | With every child at its first entry from a cut on, the current child is the one holding the entry at the cut. |
| `Merging.MergingIterator.FindLargest` | FirebaseLogin/Pods/leveldb-library/table/merger.cc:163-176 | With every child at its last entry before a cut, the current child is the one holding the entry before the cut. |
| `Merging.MergingIterator.SeekToFirst` | FirebaseLogin/Pods/leveldb-library/table/merger.cc:31-37 | As a cursor over the sorted union of the children as they are now: to its first entry. |
| `Merging.MergingIterator.SeekToLast` | FirebaseLogin/Pods/leveldb-library/table/merger.cc:39-45 | To the last entry of that union. |
| `Merging.MergingIterator.SeekTo` | FirebaseLogin/Pods/leveldb-library/table/merger.cc:47-53 | To the first entry of that union at or after the key. |
| `Merging.MergingIterator.Next` | FirebaseLogin/Pods/leveldb-library/table/merger.cc:55-79 | One entry forward in the union, from either direction; on a turn the union takes in what was inserted before, which does not move the iterator; all other children end up at their first key above the new key. |
| `Merging.MergingIterator.Prev` | FirebaseLogin/Pods/leveldb-library/table/merger.cc:81-108 | One entry back in the union, from either direction, likewise; all other children end up at their last key below the new key. |
| `Merging.MergingIterator.Read` | FirebaseLogin/Pods/leveldb-library/table/merger.cc:110-118 | Key and value are those of the cursor over the union, and invalid exactly when that is. |
| `Merging.MergingIterator.Grow` | FirebaseLogin/Pods/leveldb-library/table/merger.cc:55-108 | An entry above the bound is inserted anywhere in any child while the iterator stands or moves in either direction: it joins the union, or is passed over until the children are sought again; either way the iterator stays on its entry and the union changes by nothing at or below the bound. |
| `DbIterator.YieldedIsRead` | FirebaseLogin/Pods/leveldb-library/db/db_iter.cc:168-198 | An entry the iterator yields is what a read of its key at the iterator's sequence finds. |
| `DbIterator.ReadIsYielded` | FirebaseLogin/Pods/leveldb-library/db/db_iter.cc:168-198 | Every key that a read finds is yielded, with the same value. |
| `DbIterator.DBIter.FindNextUserEntry` | FirebaseLogin/Pods/leveldb-library/db/db_iter.cc:168-198 | Goes to the next yielded entry not skipped, or to the end, passing over nothing visible. |
| `DbIterator.DBIter.FindPrevUserEntry` | FirebaseLogin/Pods/leveldb-library/db/db_iter.cc:227-267 | Goes back to the last yielded entry before, or becomes invalid, with nothing yielded in between. |
| `DbIterator.DBIter.LeaveKey` | FirebaseLogin/Pods/leveldb-library/db/db_iter.cc:204-221 | The direction switch of Prev: leaves the entries of the current key behind, or finds that there is nothing before them. |
| `DbIterator.DBIter.Next` | FirebaseLogin/Pods/leveldb-library/db/db_iter.cc:141-166 | From either direction: the next larger key of the visible map with its value, no visible key in between; invalid exactly when there is none. |
| `DbIterator.DBIter.Prev` | FirebaseLogin/Pods/leveldb-library/db/db_iter.cc:200-225 | From either direction: the next smaller key of the visible map with its value; invalid exactly when there is none. |
| `DbIterator.DBIter.SeekTo` | FirebaseLogin/Pods/leveldb-library/db/db_iter.cc:269-281 | The first key of the visible map at or after the target. |
| `DbIterator.DBIter.SeekToFirst` | FirebaseLogin/Pods/leveldb-library/db/db_iter.cc:283-292 | The first key of the visible map. |
| `DbIterator.DBIter.SeekToLast` | FirebaseLogin/Pods/leveldb-library/db/db_iter.cc:294-299 | The last key of the visible map. |
| `DbIterator.DBIter.Grow` | FirebaseLogin/Pods/leveldb-library/db/db_iter.cc:141-267 | A write inserting an entry above the iterator's sequence into any child of the merging iterator under it, in either direction and wherever it belongs, leaves it on its key and value, and what it shows for every key is unchanged. |
| `DbIterator.GrewYields` | FirebaseLogin/Pods/leveldb-library/db/db_iter.cc:168-198 | An entry that decides its key at the iterator's sequence still does after any number of entries above it were inserted. |
| `DbIterator.DBIter.TurnForward` | FirebaseLogin/Pods/leveldb-library/db/db_iter.cc:141-162 | The direction switch of Next: to the first entry of the current key, over a run that may have grown since the last switch. |
| `DbIterator.DBIter.RetreatAll` | FirebaseLogin/Pods/leveldb-library/db/db_iter.cc:227-267 | The backward loop: it stops at an earlier user key than that of the value saved, or at the front, with the newest visible entry of the key saved, if that is a value. |
| `IteratorMeaning.DatabaseRuns` | FirebaseLogin/Pods/leveldb-library/db/db_impl.cc:1062-1087 | The children of the internal iterator are sorted, have no key in common, and hold exactly the entries of the database. |
| `IteratorMeaning.IteratorShowsHistory` | FirebaseLogin/Pods/leveldb-library/db/db_impl.cc:1147-1157 | In every state with the invariant, the map an iterator walks at a readable snapshot is the reference read of the history for every user key. |
| `IteratorMeaning.IteratorsShowHistoryInRuns` | FirebaseLogin/Pods/leveldb-library/db/db_impl.cc:1147-1157 | The same in every state of every run, for the last sequence and every live snapshot. |
| `IteratorMeaning.IteratorsDuringRun` | FirebaseLogin/Pods/leveldb-library/db/db_impl.cc:1062-1087 | An iterator that pinned its memtables and version in one state of a run shows, over its memtable as it has grown at any later state before that is switched out, the reference read of the history as of the pinned state. |
| `IteratorMeaning.NewIterator` | FirebaseLogin/Pods/leveldb-library/db/db_impl.cc:1147-1157 | An iterator at a readable snapshot of any state with the invariant, over a merging iterator on its memtables and files, shows for every user key the reference read of the history. |
| `IteratorMeaning.InsertGrows` | FirebaseLogin/Pods/leveldb-library/db/db_impl.cc:1062-1087 | In every run, a write after the iterator pinned its state and before the memtable is switched out inserts an entry into its first child that fulfils all that DBIter.Grow asks for. |
| `TwoLevel.SeekSplits` | FirebaseLogin/Pods/leveldb-library/table/two_level_iterator.cc:82-87 | A seek in the index and one in the block it names are a seek in the whole run. |
| `TwoLevel.TwoLevelIterator.InitDataBlock` | FirebaseLogin/Pods/leveldb-library/table/two_level_iterator.cc:146-161 | The open data cursor is over the block the index stands at, and there is one exactly when the index is valid. |
| `TwoLevel.TwoLevelIterator.SkipEmptyDataBlocksForward` | FirebaseLogin/Pods/leveldb-library/table/two_level_iterator.cc:115-126 | Over any number of exhausted or empty blocks, to the entry at the given position of the whole run. |
| `TwoLevel.TwoLevelIterator.SkipEmptyDataBlocksBackward` | FirebaseLogin/Pods/leveldb-library/table/two_level_iterator.cc:128-139 | The same backwards. |
| `TwoLevel.TwoLevelIterator.SeekTo` | FirebaseLogin/Pods/leveldb-library/table/two_level_iterator.cc:82-87 | To the first entry of the whole run at or after the key. |
| `TwoLevel.TwoLevelIterator.Next` | FirebaseLogin/Pods/leveldb-library/table/two_level_iterator.cc:103-107 | One entry forward in the whole run. |
| `TwoLevel.TwoLevelIterator.Prev` | FirebaseLogin/Pods/leveldb-library/table/two_level_iterator.cc:109-113 | One entry back in the whole run. |
| `TwoLevel.TwoLevelIterator.SeekToFirst` | FirebaseLogin/Pods/leveldb-library/table/two_level_iterator.cc:89-94 | To the first entry of the whole run. |
| `TwoLevel.TwoLevelIterator.SeekToLast` | FirebaseLogin/Pods/leveldb-library/table/two_level_iterator.cc:96-101 | To the last entry of the whole run. |
| `TwoLevel.LevelSeparated` | FirebaseLogin/Pods/leveldb-library/db/version_set.cc:165-228 | The largest keys of the files of a sorted level are an index over them, so the concatenating iterator of a level is such a cursor. |
| `LogFormat.FragmentsCarryRecord` | FirebaseLogin/Pods/leveldb-library/db/log_writer.cc:34-80 | The fragments of a record carry exactly its bytes, from any block offset. |
| `LogFormat.LayoutLength` | FirebaseLogin/Pods/leveldb-library/db/log_writer.cc:27-30 | The file length modulo the block size is the writer's block offset, which is all a reopened log knows. |
| `LogFormat.LogAppend` | FirebaseLogin/Pods/leveldb-library/db/log_writer.cc:34-80 | Adding a record leaves the bytes already written alone. |
| `LogFormat.RecordsOfRecord` | FirebaseLogin/Pods/leveldb-library/db/log_writer.cc:34-80 | The fragments written for a record, from any offset of a block, say that record, whatever unfinished one was pending, and leave none pending. |
| `LogFormat.Writer.SwitchBlock` | FirebaseLogin/Pods/leveldb-library/db/log_writer.cc:43-54 | A block too full for a header is filled with zeros. |
| `LogFormat.Writer.EmitPhysicalRecord` | FirebaseLogin/Pods/leveldb-library/db/log_writer.cc:82-108 | Writes masked checksum, length, type and payload. |
| `LogFormat.Writer.AddRecord` | FirebaseLogin/Pods/leveldb-library/db/log_writer.cc:34-80 | The records that the fragments in the file say are those before and the new one, also in a reopened log; a log written from its start is the layout of all records. |
| `LogFormat.Writer.Reopen` | FirebaseLogin/Pods/leveldb-library/db/log_writer.cc:27-30 | From the length alone, a writer on a file that ends at the edge of a fragment, or in zeros that fill a block, goes on with its records; what happens on any other file is stated by LogReuse. |
| `LogReading.Reader.ReadPhysicalRecord` | FirebaseLogin/Pods/leveldb-library/db/log_reader.cc:189-271 | The next fragment, end of file or bad record, and the reports made, for arbitrary bytes, as the reading function defines. |
| `LogReading.Reader.ReadRecord` | FirebaseLogin/Pods/leveldb-library/db/log_reader.cc:56-172 | The next record for arbitrary bytes, as the reading function defines. |
| `LogReading.Reader.ReadAll` | FirebaseLogin/Pods/leveldb-library/db/db_impl.cc:408-439 | All records until a read fails. |
| `LogReading.PieceAhead` | FirebaseLogin/Pods/leveldb-library/db/log_reader.cc:189-271 | In front of a possibly cut layout: the next fragment exactly if all of it is there, else end of file; never a report. |
| `LogReading.RecordAhead` | FirebaseLogin/Pods/leveldb-library/db/log_reader.cc:56-172 | The next record exactly if all its fragments are there; else none; never a report. |
| `LogReading.TruncatedLog` | FirebaseLogin/Pods/leveldb-library/db/log_reader.cc:56-271 | For all lists of records of any length and every byte prefix of their file: exactly the records wholly in the prefix, and no report. |
| `LogReading.WholeLog` | FirebaseLogin/Pods/leveldb-library/db/log_reader.cc:56-271 | The whole file gives back exactly the list of records, and no report. |
| `LogIntegrity.NothingMadeUp` | FirebaseLogin/Pods/leveldb-library/db/log_reader.cc:56-271 | For any file at all, whatever it holds: the records read from it are exactly those of fragments that stand in it byte for byte, one behind the other, each with the length, type and checksum that the writer computes. |
| `LogIntegrity.PieceThere` | FirebaseLogin/Pods/leveldb-library/db/log_reader.cc:189-271 | One physical read of any buffer and file: what it hands out as a fragment stands right before the bytes it leaves unread. |
| `LogReuse.FragmentsRead` | FirebaseLogin/Pods/leveldb-library/db/log_reader.cc:56-271 | Any sequence of whole fragments, from any offset and with any record pending, is read as the records it says, whatever bytes stand behind it. |
| `LogReuse.EdgeReads` | FirebaseLogin/Pods/leveldb-library/db/log_reader.cc:56-271 | A file of whole fragments, and perhaps some zeros of a block's trailer, reads as the records its fragments say. |
| `LogReuse.CutReads` | FirebaseLogin/Pods/leveldb-library/db/log_reader.cc:56-271 | A file of any fragments, cut after any byte, reads as the records that its whole fragments say. |
| `LogReuse.EdgeReuse` | FirebaseLogin/Pods/leveldb-library/db/db_impl.cc:457-478 | A log cut at the edge of a fragment and then written on: all records in front of the cut and all later ones are read back, and an unfinished record is reported exactly if one was begun and something was written. |
| `LogReuse.TornReuse` | FirebaseLogin/Pods/leveldb-library/db/db_impl.cc:457-478 | A log cut inside a fragment and then written on, for all fragments, cuts and later records: up to a checksum collision, exactly what was whole in front of the cut is read back, and the later records that start in a later block; with the reports that this makes. |
| `LogReuse.ReusedLogIff` | FirebaseLogin/Pods/leveldb-library/db/db_impl.cc:457-478 | Up to a checksum collision, everything is read back if and only if nothing was written on, or the cut is at the edge of a fragment, or so near the end of a block that the writer starts the next. |
| `LogReuse.ShortWriteIsLost` | FirebaseLogin/Pods/leveldb-library/db/db_impl.cc:457-478 | No collision is possible while what was written on is shorter than what the torn fragment lacks: then nothing of it is read back, and nothing is reported. |
| `LogReuse.WriteBehindTearIsLost` | FirebaseLogin/Pods/leveldb-library/db/db_impl.cc:457-478 | A family of inputs: a record, the header and some bytes of a second one, and a short record behind them after reopening; only the first is read back, without a report. |
| `QuietReuse.QuietReuseIff` | FirebaseLogin/Pods/leveldb-library/db/log_reader.cc:56-271 | For all fragments, cuts and later records, up to a checksum collision: a log cut off and written on gives back all its records without a report if and only if the part in front of the cut makes none, and nothing was written on, or the cut is at the edge of a fragment with no record begun, or so little of a header is left at the end of a block that it looks like one never written. |
| `QuietReuse.OtherwiseLost` | FirebaseLogin/Pods/leveldb-library/db/log_reader.cc:56-271 | Otherwise records are missing or something is reported. |
| `QuietReuse.CutInsideRecord` | FirebaseLogin/Pods/leveldb-library/db/log_reader.cc:79-102 | A cut at the edge of a block inside a record, written on: all later records are read, with one report. |
| `WriteBatches.WriteBatch.Put` | FirebaseLogin/Pods/leveldb-library/db/write_batch.cc:98-103 | The bytes are again those of the list of updates, the new one last, count raised. |
| `WriteBatches.WriteBatch.Delete` | FirebaseLogin/Pods/leveldb-library/db/write_batch.cc:105-109 | The same for a deletion. |
| `WriteBatches.WriteBatch.Append` | FirebaseLogin/Pods/leveldb-library/db/write_batch.cc:144-148 | The updates of the source follow those of the target, and the count is their sum. |
| `WriteBatches.WriteBatch.SetSequence` | FirebaseLogin/Pods/leveldb-library/db/write_batch.cc:94-96 | Changes the sequence number and nothing else. |
| `WriteBatches.WriteBatch.Iterate` | FirebaseLogin/Pods/leveldb-library/db/write_batch.cc:42-80 | On arbitrary bytes as the walk defines, errors included; on a built batch it hands out exactly the updates, without an error. |
| `WriteBatches.WriteBatch.InsertInto` | FirebaseLogin/Pods/leveldb-library/db/write_batch.cc:132-137 | The updates get consecutive sequence numbers from that of the batch on. |
| `WriteBatches.BatchReads` | FirebaseLogin/Pods/leveldb-library/db/write_batch.cc:42-80 | Reading back the bytes of any list of updates gives that list. |
| `WriteBatches.CutBatchFails` | FirebaseLogin/Pods/leveldb-library/db/write_batch.cc:42-80 | A batch of which any bytes at the end are missing is refused. |
| `WriteBatches.WrongCountFails` | FirebaseLogin/Pods/leveldb-library/db/write_batch.cc:75-79 | A batch whose count is not the number of its updates is refused, after all of them have been handed out. |
| `WriteBatches.CrashKeepsWholeBatches` | FirebaseLogin/Pods/leveldb-library/db/db_impl.cc:408-439 | From a log of batches cut after any number of bytes, recovery gets exactly the batches wholly in front of the cut, each with its sequence number and all its updates, and no report. |
| `Coding.Varint32RoundTrip` | FirebaseLogin/Pods/leveldb-library/util/coding.cc:47-73 | Every number below 2^32 reads back from its varint, with what follows left over. |
| `Coding.Varint64RoundTrip` | FirebaseLogin/Pods/leveldb-library/util/coding.cc:81-90 | Every number below 2^64 reads back from its varint. |
| `Coding.DecodeVarint` | FirebaseLogin/Pods/leveldb-library/util/coding.cc:112-157 | The shifting loop computes the recursive definition, on arbitrary bytes, failures included. |
| `Coding.SliceRoundTrip` | FirebaseLogin/Pods/leveldb-library/util/coding.cc:98-101 | A length-prefixed string reads back. |
| `Coding.Fixed64Front` | FirebaseLogin/Pods/leveldb-library/util/coding.h:74-86 | Eight little-endian bytes read back. |
| `Masking.UnmaskMask` | FirebaseLogin/Pods/leveldb-library/util/crc32c.h:29-39 | Unmasking undoes masking for every checksum. |
| `Masking.MaskUnmask` | FirebaseLogin/Pods/leveldb-library/util/crc32c.h:25-38 | Every 32-bit number is the mask of the checksum it unmasks to, so a stored checksum that is accepted is the one that would be written. |
| `Masking.FixedRoundTrip` | FirebaseLogin/Pods/leveldb-library/util/coding.h:60-72 | A 32-bit number is the sum of its four bytes weighted with the powers of 256, lowest first, and reads back. |
| `Crc32c.StepIsFeed` | FirebaseLogin/Pods/leveldb-library/util/crc32c.cc:286-291 | One table lookup is eight steps of the reflected shift register of section 12.1 of RFC 3720. |
| `Crc32c.Zero16Linear` | FirebaseLogin/Pods/leveldb-library/util/crc32c.cc:293-300 | Extension by sixteen zero bytes is linear over GF(2). |
| `Crc32c.WordStep` | FirebaseLogin/Pods/leveldb-library/util/crc32c.cc:312-320 | Four bytes one by one are one little-endian word at once. |
| `Crc32c.StrideIsZero16` | FirebaseLogin/Pods/leveldb-library/util/crc32c.cc:293-300 | The four stride table lookups add up to the extension by sixteen zero bytes. |
| `Crc32c.RotateStride` | FirebaseLogin/Pods/leveldb-library/util/crc32c.cc:293-310 | Advancing one stride by a word and rotating the strides advances the combined register by that word. |
| `Crc32c.ExtendAppend` | FirebaseLogin/Pods/leveldb-library/util/crc32c.h:18-20 | Extending twice is extending by the concatenation. |
| `Crc32c.Strides` | FirebaseLogin/Pods/leveldb-library/util/crc32c.cc:332-366 | The interleaved part of the loop computes the register over the bytes consumed. |
| `Crc32c.ExtendFast` | FirebaseLogin/Pods/leveldb-library/util/crc32c.cc:276-377 | For every start value, buffer, length and alignment, the interleaved computation equals the byte-at-a-time checksum. |
| `Blocks.BlockBuilder.Add` | FirebaseLogin/Pods/leveldb-library/table/block_builder.cc:72-106 | The new entry follows those before; it shares the longest common prefix with the last key, or starts a restart point when the interval is full. |
| `Blocks.BlockBuilder.Finish` | FirebaseLogin/Pods/leveldb-library/table/block_builder.cc:62-70 | The block is the entries followed by the restart array and its length. |
| `Blocks.DecodeEntryOf` | FirebaseLogin/Pods/leveldb-library/table/block.cc:54-75 | An encoded entry decodes to its three lengths, on the one-byte path as on the varint path. |
| `Blocks.OverrunsIff` | FirebaseLogin/Pods/leveldb-library/table/block.cc:68-75 | An entry that passes the 32-bit length check runs past the end of its block if and only if the true sum of its lengths reaches 2^32. |
| `Blocks.WrappedIsAccepted` | FirebaseLogin/Pods/leveldb-library/table/block.cc:68-75 | Seven bytes that pass the check and promise a key of 2^32 - 1 bytes. |
| `Blocks.BlockParts` | FirebaseLogin/Pods/leveldb-library/table/block.cc:19-40 | A reader finds in a built block the entries, the number of restarts and every restart offset. |
| `BlockReading.OpenBuilt` | FirebaseLogin/Pods/leveldb-library/table/block.cc:24-40 | Opening a built block succeeds and finds where its restart array starts. |
| `BlockReading.ParsedEntry` | FirebaseLogin/Pods/leveldb-library/table/block.cc:224-251 | From the key before it, the parsed entry has exactly the key and value that were added. |
| `BlockReading.BlockIter.ParseNextKey` | FirebaseLogin/Pods/leveldb-library/table/block.cc:224-251 | On arbitrary bytes it makes progress, stops, or runs past the block, the last exactly when the entry decodes and its lengths wrap around in 32 bits (never in a block without such bytes); in a built block it is at entry n exactly if there is one, and reports no corruption. |
| `BlockReading.BlockIter.SeekToRestartPoint` | FirebaseLogin/Pods/leveldb-library/table/block.cc:104-112 | In a built block the next entry to parse is that of the restart point. |
| `BlockReading.BlockIter.Next` | FirebaseLogin/Pods/leveldb-library/table/block.cc:137-140 | In a built block, from entry i to entry i+1. |
| `BlockReading.BlockIter.Prev` | FirebaseLogin/Pods/leveldb-library/table/block.cc:142-161 | In a built block, from entry i to entry i-1 despite prefix compression; invalid before the first. |
| `BlockReading.BlockIter.Seek` | FirebaseLogin/Pods/leveldb-library/table/block.cc:163-201 | In a built block with increasing keys, under any comparator: the first entry not below the target. In any block without lengths that wrap around it never runs past the end. |
| `BlockReading.BlockIter.SeekToFirst` | FirebaseLogin/Pods/leveldb-library/table/block.cc:203-206 | The first entry, if any. |
| `BlockReading.BlockIter.SeekToLast` | FirebaseLogin/Pods/leveldb-library/table/block.cc:208-213 | The last entry, if any. |
| `Separators.FindShortestSeparator` | FirebaseLogin/Pods/leveldb-library/util/comparator.cc:29-50 | The start itself or a string strictly between; changed exactly when the byte where the strings part can be raised, and then that byte is raised by one and the rest cut off. |
| `Separators.FindShortSuccessor` | FirebaseLogin/Pods/leveldb-library/util/comparator.cc:52-64 | The key itself or a larger string; changed exactly when some byte is not 255, and then the first such byte is raised by one and the rest cut off. |
| `Separators.FindInternalSeparator` | FirebaseLogin/Pods/leveldb-library/db/dbformat.cc:69-86 | The start key itself or a key of a user key strictly between with the earliest tag; changed exactly when the user key gets shorter. |
| `Separators.FindInternalSuccessor` | FirebaseLogin/Pods/leveldb-library/db/dbformat.cc:88-101 | The key itself or a key of a larger user key with the earliest tag; changed exactly when the user key gets shorter. |
| `Filters.SetBitSets` | FirebaseLogin/Pods/leveldb-library/util/bloom.cc:45-52 | Setting a bit sets that bit and changes no other. |
| `Filters.RotatesBy17` | FirebaseLogin/Pods/leveldb-library/util/bloom.cc:45-52 | The step between the probes of a key is its 32-bit hash rotated to the right by 17, bit by bit. |
| `Filters.CreateFilter` | FirebaseLogin/Pods/leveldb-library/util/bloom.cc:28-54 | The filter has the size and probe count asked for, marks exactly the bits its keys probe, and so denies none of them. |
| `Filters.KeyMayMatch` | FirebaseLogin/Pods/leveldb-library/util/bloom.cc:56-80 | True exactly when the filter has a bit for every probe, or an unknown probe count; false for a filter too short. |
| `Filters.FilterBlockBuilder.StartBlock` | FirebaseLogin/Pods/leveldb-library/table/filter_block.cc:21-27 | From then on keys go into the filter of the 2 KB range of the block offset; the filter of the keys so far and the empty ones in between are made. |
| `Filters.FilterBlockBuilder.GenerateFilter` | FirebaseLogin/Pods/leveldb-library/table/filter_block.cc:51-75 | One more filter, exactly that of the keys collected. |
| `Filters.FilterBlockBuilder.Finish` | FirebaseLogin/Pods/leveldb-library/table/filter_block.cc:35-49 | The filter block of all key lists: for each list its Bloom filter, or nothing for no keys. |
| `Filters.FilterDeniesNoKey` | FirebaseLogin/Pods/leveldb-library/table/filter_block.cc:90-104 | No key added for a block is denied when that block's offset is asked for it. |
| `Tables.HomeBlock` | FirebaseLogin/Pods/leveldb-library/table/table.cc:216-244 | If the first record at or after the key has the key's user key, it is in the one block the index names. |
| `Tables.FoundFirst` | FirebaseLogin/Pods/leveldb-library/table/table.cc:216-244 | The first record at or after the key in the named block is the first of the table. |
| `Tables.InternalGet` | FirebaseLogin/Pods/leveldb-library/table/table.cc:216-244 | For every sorted table, over its records: it looks into the one block that the index names, and only if the filter does not deny the user key; what it hands back is the first record at or after the key, and it hands that back whenever it has the looked-up user key; separators and filter lose nothing. |
| `TableFormat.KeyRoundTrip` | FirebaseLogin/Pods/leveldb-library/db/dbformat.cc:20-23 | User key and tag read back from the bytes of an internal key. |
| `TableFormat.HandleRoundTrip` | FirebaseLogin/Pods/leveldb-library/table/format.cc:15-29 | Offset and size read back from a block handle, whatever follows. |
| `TableFormat.FooterRoundTrip` | FirebaseLogin/Pods/leveldb-library/table/format.cc:31-62 | Both handles read back from the footer, magic number checked. |
| `TableFormat.RawBlockReads` | FirebaseLogin/Pods/leveldb-library/table/format.cc:64-139 | A block written with its type and masked checksum is read back from its handle, whatever is appended to the file. |
| `TableFormat.BlockReadIff` | FirebaseLogin/Pods/leveldb-library/table/format.cc:64-139 | In any file a handle reads a block if and only if the block stands there as it is written, with its type and masked checksum. |
| `TableFiles.SeekBlock` | FirebaseLogin/Pods/leveldb-library/table/block.cc:163-201 | A new iterator over the bytes of a built block and one seek: the key and value of the first entry not below the target. |
| `TableFiles.Open` | FirebaseLogin/Pods/leveldb-library/table/table.cc:38-136 | From any bytes: opens exactly if the footer can be read and the index block it names is whole; and from those of a table file it finds the index block and, through the meta-index, the filter block. |
| `TableFiles.IndexIncreases` | FirebaseLogin/Pods/leveldb-library/table/table_builder.cc:94-123 | Index keys increase, so the index block may be searched like a data block. |
| `TableFiles.FoundIsSeek` | FirebaseLogin/Pods/leveldb-library/db/dbformat.cc:51-67 | A seek among encoded internal keys stops where a seek among the keys does. |
| `TableFiles.InternalGet` | FirebaseLogin/Pods/leveldb-library/table/table.cc:216-244 | On the bytes of any table file (index block, filter block, the one data block the index names): it looks where Tables.InternalGet does; what it hands back is the first record at or after the key, and it hands that back whenever it has the looked-up user key. |
| `KeyEmbedding.EmbedOrder` | FirebaseLogin/Pods/leveldb-library/util/comparator.cc:26-28 | Byte strings in bytewise order are ordered exactly as the reals that stand for them. |
| `KeyEmbedding.KeyOrder` | FirebaseLogin/Pods/leveldb-library/db/dbformat.cc:51-67 | Internal keys of tables are ordered, and equal, exactly as the keys of the engine that stand for them. |
| `KeyEmbedding.RecordsSorted` | FirebaseLogin/Pods/leveldb-library/table/table_builder.cc:94-123 | The records of a table are a sorted run of the engine. |
| `KeyEmbedding.GetIsLookup` | FirebaseLogin/Pods/leveldb-library/db/version_set.cc:263-276 | The record that a table lookup hands back, kept if it has the user key asked for, is what the engine's lookup finds in the table's entries at that snapshot. |
| `TableBuilding.TableBuilder.Add` | FirebaseLogin/Pods/leveldb-library/table/table_builder.cc:94-123 | The record is added; a pending index entry gets the shortened separator and the handle of its block first; the block is written if and only if its size with the record, as a finished block has it, has reached the block size. |
| `TableBuilding.TableBuilder.Flush` | FirebaseLogin/Pods/leveldb-library/table/table_builder.cc:125-139 | Ends the current block, if it has records, and changes no record and no index key. |
| `TableBuilding.TableBuilder.WriteRawBlock` | FirebaseLogin/Pods/leveldb-library/table/table_builder.cc:177-194 | The block, its type and its masked checksum go to the end of the file, and the handle says where. |
| `TableBuilding.TableBuilder.Finish` | FirebaseLogin/Pods/leveldb-library/table/table_builder.cc:198-253 | The table holds exactly the records added, in the blocks that were finished and the current one, with the shortened successor as last index key; and a file below 4 GB is a table file of it, byte by byte: data blocks, filter block, meta-index, index and footer, as Open and InternalGet need them. |
| `MemTables.MemTable.Add` | FirebaseLogin/Pods/leveldb-library/db/memtable.cc:75-98 | The encoded entry goes to its place among the entries: as the engine's memtable gets the entry it stands for. |
| `MemTables.MemTable.Get` | FirebaseLogin/Pods/leveldb-library/db/memtable.cc:100-133 | On the bytes of the entries, with the bytes of a lookup key: the value, deletion or nothing that the engine's lookup finds among the entries. |
| `EditCoding.PayloadRoundTrip` | FirebaseLogin/Pods/leveldb-library/db/version_edit.cc:87-195 | Every kind of field reads back from its payload. |
| `EditCoding.EditRoundTrip` | FirebaseLogin/Pods/leveldb-library/db/version_edit.cc:41-205 | Decoding an encoded edit, its deletions in any order, gives the edit behind the compact pointers the target already had. |
| `EditCoding.EditRoundTripIff` | FirebaseLogin/Pods/leveldb-library/db/version_edit.cc:26-39 | The round trip is exact if and only if the target had no compact pointers: Clear does not remove them. |
| `EditCoding.VersionEdit.EncodeTo` | FirebaseLogin/Pods/leveldb-library/db/version_edit.cc:41-85 | The bytes of all set fields in order, the deleted files in some order. |
| `EditCoding.VersionEdit.DecodeFrom` | FirebaseLogin/Pods/leveldb-library/db/version_edit.cc:107-205 | On arbitrary bytes, succeeds exactly when the decoding function does, with its result. |
| `HandleTables.HandleTable.FindPointer` | FirebaseLogin/Pods/leveldb-library/util/cache.cc:114-120 | Finds the node of the key and hash in its bucket's chain, or the end of the chain exactly when the map has no such key. |
| `HandleTables.HandleTable.Lookup` | FirebaseLogin/Pods/leveldb-library/util/cache.cc:74-76 | The map's value of the key. |
| `HandleTables.HandleTable.Insert` | FirebaseLogin/Pods/leveldb-library/util/cache.cc:78-92 | The map is updated at the key, and the value it replaced is handed back; the table grows exactly when there would be more elements than buckets, so the average chain stays at one or less. |
| `HandleTables.HandleTable.Remove` | FirebaseLogin/Pods/leveldb-library/util/cache.cc:94-102 | The key is gone from the map and its value handed back. |
| `HandleTables.HandleTable.Resize` | FirebaseLogin/Pods/leveldb-library/util/cache.cc:122-146 | The table stands for the same map, at the least power-of-two length from four on that has a bucket per element. |
| `LruCaches.RefOk` | FirebaseLogin/Pods/leveldb-library/util/cache.cc:217-223 | Taking a reference keeps the cache invariant, an unused entry moving to the in-use list. |
| `LruCaches.ReleaseOk` | FirebaseLogin/Pods/leveldb-library/util/cache.cc:225-237 | Giving back a held reference keeps the invariant; an entry goes to the end of the LRU list, or to its deleter, exactly as its count says. |
| `LruCaches.EraseOk` | FirebaseLogin/Pods/leveldb-library/util/cache.cc:307-316 | Removing a cached entry keeps the invariant for all handles clients hold. |
| `LruCaches.InsertOk` | FirebaseLogin/Pods/leveldb-library/util/cache.cc:266-303 | Inserting over an old entry of the key keeps the invariant. |
| `LruCaches.HeldIsAlive` | FirebaseLogin/Pods/leveldb-library/util/cache.cc:217-237 | Under the invariant a held handle has not been freed, and each handle no longer alive was passed to its deleter exactly once. |
| `LruCaches.EvictOldest` | FirebaseLogin/Pods/leveldb-library/util/cache.cc:293-300 | Evicting the front of the LRU list frees exactly that handle and takes exactly its key from the table. |
| `LruCaches.HeldStays` | FirebaseLogin/Pods/leveldb-library/util/cache.cc:293-300 | A handle that a client holds, and its key, outlast every eviction. |
| `LruCaches.LRUCache.Lookup` | FirebaseLogin/Pods/leveldb-library/util/cache.cc:252-259 | The cached handle of the key with one more reference; usage and contents as before. |
| `LruCaches.LRUCache.Release` | FirebaseLogin/Pods/leveldb-library/util/cache.cc:261-264 | One reference less; usage and contents as before. |
| `LruCaches.LRUCache.Erase` | FirebaseLogin/Pods/leveldb-library/util/cache.cc:318-321 | The key is gone, and clients keep what they hold. |
| `LruCaches.LRUCache.Shrink` | FirebaseLogin/Pods/leveldb-library/util/cache.cc:293-300 | Frees a prefix of the LRU list, oldest first, and nothing else: just as many handles as bring the usage within the capacity, or all unused ones; one fewer would not have. |
| `LruCaches.LRUCache.Insert` | FirebaseLogin/Pods/leveldb-library/util/cache.cc:266-303 | The new handle is held and, unless the capacity is 0, cached in place of the key's old one; then exactly as many unused handles are freed, oldest first, as bring the usage within the capacity, none if it is. |
| `LruCaches.LRUCache.Prune` | FirebaseLogin/Pods/leveldb-library/util/cache.cc:323-333 | Frees exactly the unused handles. |
| `SkipLists.SkipList.FindGreaterOrEqual` | FirebaseLogin/Pods/leveldb-library/db/skiplist.h:261-281 | The first node at or after the key, and on each level in use the last node before it. |
| `SkipLists.SkipList.FindLessThan` | FirebaseLogin/Pods/leveldb-library/db/skiplist.h:284-302 | The last node before the key, the head if none. |
| `SkipLists.SkipList.FindLast` | FirebaseLogin/Pods/leveldb-library/db/skiplist.h:305-322 | The last node, the head if the list is empty. |
| `SkipLists.SkipList.Contains` | FirebaseLogin/Pods/leveldb-library/db/skiplist.h:371-378 | True exactly when the list holds the key. |
| `SkipLists.SkipList.Raise` | FirebaseLogin/Pods/leveldb-library/db/skiplist.h:346-358 | More levels come into use, on which the head precedes every key; no list changes. |
| `SkipLists.SkipList.Insert` | FirebaseLogin/Pods/leveldb-library/db/skiplist.h:337-368 | For every height: the new node is linked on exactly that many levels, levels stay sorted and each a sublist of the one below, exactly the key is added, and every state between two stores is well formed with the old or the new key set. |
| `SkipLists.RaiseKeeps` | FirebaseLogin/Pods/leveldb-library/db/skiplist.h:346-358 | Raising the height early changes nothing a reader can see. |
| `SkipLists.PublishKeeps` | FirebaseLogin/Pods/leveldb-library/db/skiplist.h:362-367 | Publishing a node on a level, its own link already set, makes it a member of exactly that level. |
| `SkipLists.SearchStepRight` | FirebaseLogin/Pods/leveldb-library/db/skiplist.h:261-281 | One read of a search, in any well-formed state, keeps the search before the key or ends it with the right answer for that state. |
| `SkipLists.ConcurrentSearch` | FirebaseLogin/Pods/leveldb-library/db/skiplist.h:261-281 | However a writer's stores fall between the reads of a search, its result is right for the state at its last read. |
| `PbWire.SignedRoundTrips` | FirebaseLogin/Pods/nanopb/pb_encode.c:630-639 | Sign extension and zigzag are undone by the decoder for all 64-bit numbers. |
| `PbWire.Varint32Reads` | FirebaseLogin/Pods/nanopb/pb_decode.c:187-247 | Every number below 2^32 reads back through the 32-bit varint decoder. |
| `PbMessages.DefaultsTyped` | FirebaseLogin/Pods/nanopb/pb_decode.c:839-922 | Setting a struct of any well-formed schema to its defaults gives a struct of that schema. |
| `PbMessages.ZeroIsDefault` | FirebaseLogin/Pods/nanopb/pb_encode.c:240-337 | A struct that the proto3 check calls default is the default one up to the contents of absent fields, so leaving it out loses nothing. |
| `PbMessages.ZeroIff` | FirebaseLogin/Pods/nanopb/pb_encode.c:240-337 | A value is taken for zero if and only if its type can be (no required member, no byte array of fixed length above 0, at any depth of singular submessages) and it is the default one up to the contents of absent fields. |
| `PbEncoding.OStream.Write` | FirebaseLogin/Pods/nanopb/pb_encode.c:103-122 | Appends the bytes, or fails as a whole and writes none of them when they do not fit; a sizing stream only counts. |
| `PbEncoding.EncodeVarint` | FirebaseLogin/Pods/nanopb/pb_encode.c:608-628 | Writes the varint of the number. |
| `PbEncoding.MeasureItems` | FirebaseLogin/Pods/nanopb/pb_encode.c:169-189 | The size of a packed array, computed or measured, is the length of its encoding. |
| `PbEncoding.EncodeArray` | FirebaseLogin/Pods/nanopb/pb_encode.c:147-236 | A packed array as one length-prefixed field, any other with a tag for each item, as the encoding function defines. |
| `PbEncoding.EncodeField` | FirebaseLogin/Pods/nanopb/pb_encode.c:341-426 | Each kind of field (required, optional, singular, repeated, oneof) as the encoding function defines; PbScanning.EncodingScans, PbEvolution.EvolvedReadsBackIff and PbRoundTrip.RoundTripIff say what that is. |
| `PbEncoding.EncodeMessage` | FirebaseLogin/Pods/nanopb/pb_encode.c:528-550 | All fields in order; on success the stream has grown by exactly the encoding, sizing or not. |
| `PbEncoding.EncodeSubmessage` | FirebaseLogin/Pods/nanopb/pb_encode.c:717-765 | The sizing pass always equals the bytes written: a nested message is written whole behind its length, or fails for want of room, and the outcome that its size changed does not occur. |
| `PbEncoding.GetEncodedSize` | FirebaseLogin/Pods/nanopb/pb_encode.c:567-576 | The length of the encoding, and nothing exactly when there is none. |
| `PbDecoder.FieldIter.Next` | FirebaseLogin/Pods/nanopb/pb_common.c:20-76 | The next field, wrapping to the first. |
| `PbDecoder.FieldIter.Find` | FirebaseLogin/Pods/nanopb/pb_common.c:78-95 | From any position in a message type with fields, finds a field with the tag exactly when there is one, and otherwise comes back to where it was. In a message type without fields it finds none, where the code would match tag 0 at the terminator. |
| `PbDecoder.FoundMember` | FirebaseLogin/Pods/nanopb/pb_common.c:78-95 | What the search finds is the one member with the tag, with its place among the required fields. |
| `PbDecoder.IStream.DecodeVarint32` | FirebaseLogin/Pods/nanopb/pb_decode.c:187-253 | On arbitrary bytes as the reading function defines, overflow errors included, except that the eight-bit bit position of the code wraps around on varints of more than 37 bytes: 37 bytes 0x80 and then 0x01 are an error here and 8 in the code. |
| `PbDecoder.IStream.SkipField` | FirebaseLogin/Pods/nanopb/pb_decode.c:321-332 | Skips one field of the wire type, on arbitrary bytes, as the skipping function defines; PbScanning.SkipIsWidth and PbScanning.ValueSkips say how far that is. |
| `PbDecoder.DecodeNumber` | FirebaseLogin/Pods/nanopb/pb_decode.c:1339-1422 | The integer decoders with their range checks, on arbitrary bytes. |
| `PbDecoder.DecodeField` | FirebaseLogin/Pods/nanopb/pb_decode.c:406-484 | A field of any member over what its struct holds, on arbitrary bytes. |
| `PbDecoder.CheckRequired` | FirebaseLogin/Pods/nanopb/pb_decode.c:1033-1073 | True exactly when every tracked required field was seen; PbEvolution.EvolvedReadsBackIff says of whole messages what that refuses. |
| `PbDecoder.DecodeMessage` | FirebaseLogin/Pods/nanopb/pb_decode.c:928-1076 | The loop with its field iterator computes the decoding function on all bytes without a varint of more than 37 bytes, for message types with fields, or without fields and without a tag 0: unknown fields skipped, a zero tag ending it, missing required fields an error; PbEvolution, PbMerging and PbCapacity say what that function does. |
| `PbDecoder.DecodeFresh` | FirebaseLogin/Pods/nanopb/pb_decode.c:1078-1090 | Defaults first, then the loop. |
| `PbRoundTrip.ValueReadsBack` | FirebaseLogin/Pods/nanopb/pb_decode.c:1519-1541 | A nested value reads back, up to the contents of absent fields, exactly when every text in it leaves room for its terminator. |
| `PbRoundTrip.MessageReadsBack` | FirebaseLogin/Pods/nanopb/pb_decode.c:928-1076 | A message decoded over defaults reads back exactly under that condition, and fails otherwise. |
| `PbRoundTrip.RoundTripIff` | FirebaseLogin/Pods/nanopb/pb_decode.c:1078-1090 | For every well-formed schema and every conforming nested message below 2^32 bytes: decoding its encoding gives it back, up to the contents of absent fields, if and only if every text leaves room for its terminator. |
| `PbRoundTrip.FullBufferIsLost` | FirebaseLogin/Pods/nanopb/pb_encode.c:875-899 | A text that fills its buffer is encoded but cannot be decoded. |
| `PbScanning.EncodingScans` | FirebaseLogin/Pods/nanopb/pb_encode.c:668-706 | A scanner that knows no schema (a base-128 tag; then for its low three bits 0 a base-128 number, for 1 eight bytes, for 2 a length and that many bytes, for 5 four bytes) splits the encoding of every conforming message into exactly its fields: the tags of the members present, in member order, each with its value. |
| `PbScanning.ValueWidth` | FirebaseLogin/Pods/nanopb/pb_encode.c:674-706 | The wire type written in front of a value of any kind announces exactly the bytes of the value. |
| `PbScanning.SkipIsWidth` | FirebaseLogin/Pods/nanopb/pb_decode.c:278-332 | On arbitrary bytes an unknown varint, eight-byte or four-byte field is passed over exactly if it is there in full, and what follows is left; other wire types are an error. |
| `PbScanning.ValueSkips` | FirebaseLogin/Pods/nanopb/pb_decode.c:321-332 | An encoded value of any kind is passed over exactly, with what follows it left over. |
| `PbEvolution.UnknownMember` | FirebaseLogin/Pods/nanopb/pb_decode.c:980-989 | All the fields of a member that the reader does not know, packed and repeated ones and oneofs included, are passed over and change nothing. |
| `PbEvolution.EvolvedReadsBackIff` | FirebaseLogin/Pods/nanopb/pb_decode.c:928-1076 | A writer that knows some members of a schema and a reader that knows others: the message is decoded if and only if no required member of the reader, among its first 64, was left unwritten and every text they share leaves room for its terminator; and then the reader has what was written of the members they share, and its defaults of the others. |
| `PbMerging.LoopGoesOn` | FirebaseLogin/Pods/nanopb/pb_decode.c:949-1031 | Bytes behind a message that is read to its end are read on top of what it left. |
| `PbMerging.ZeroTagEnds` | FirebaseLogin/Pods/nanopb/pb_decode.c:298-319 | A zero tag ends a message, whatever follows. |
| `PbMerging.MessagesMerge` | FirebaseLogin/Pods/nanopb/pb_decode.c:928-1076 | Decoding two messages one behind the other, the first of them complete and read to its end, is decoding the second on top of the first. |
| `PbMerging.SubmessagesMerge` | FirebaseLogin/Pods/nanopb/pb_decode.c:1519-1541 | A submessage that comes in two fields is merged: it is the one whose bytes are those of both. |
| `PbCapacity.DecodedHasRoom` | FirebaseLogin/Pods/nanopb/pb_decode.c:406-484 | For all bytes: a message that is decoded has no byte array longer than its capacity and no repeated field with more items than its array, at any depth. |
| `PbCapacity.NumbersRead` | FirebaseLogin/Pods/nanopb/pb_decode.c:1339-1422 | What becomes of any varint in a field: any number but zero is true, an unsigned or zigzag number is refused exactly if the field cannot hold it, of a signed one the low 32 bits count, or all 64 in a field of eight bytes. |

## Left out

- The Swift application (login, view models, validation, Firebase services): user interface and calls into closed libraries.
- Files, threads and the operating system (`env_posix.cc`, `port`), Snappy compression, loggers, `c.cc`, `repair.cc`: a file is a byte or record sequence with append; blocks are not compressed.
- I/O errors: no write, sync or read of a file fails; a leader that is handed a background error before it builds a group is modelled.
- Compaction scores, seek sampling, statistics and the compact pointers: heuristics; the model lets them choose any file. Limits in bytes are parameters, and what they decide is stated.
- Compactions.DoCompactionWork: does not model keys that fail to parse, because entries are values; a flush in the middle of the loop is a step of Engine.
- InputSelection.PickCompaction: the file is a parameter; which one the score or the compact pointer names is not modelled.
- Manifests.RecoverManifest: the `CURRENT` file and the compact pointers are not modelled; an edit that does not decode or names another comparator is not either; how the bytes of a key read, and what a table contains, are parameters.
- Manifests.SnapshotIsVersion: speaks of the files only; the comparator name and the compact pointers of a snapshot edit are free in ManifestFiles.IsSnapshot.
- ManifestFiles.ManifestReadsBack: that the recovery's version comes from one edit is part of the step there; contents and size of a table that the manifest names never change.
- Recovery.Recover: the manifest is given by its counters and version, and logs by their records; that their bytes say this is the subject of ManifestFiles and LogFiles. With `paranoid_checks` a report on a log ends recovery with an error; here it is counted in LogReading and not acted on. `prev_log_number` is 0. Snapshots and iterators do not outlive a crash.
- Durability.Recovered: the guard asks for a log and a manifest that end at the edge of a fragment, the manifest with no record begun; a cut in the last six bytes of a block may do as well, as LogReuse.ReusedLogIff and QuietReuse.QuietReuseIff say.
- LogReuse.ReusedLogIff: bytes that do not pass for a fragment are assumed where the torn fragment meets what is written behind it, and so for QuietReuse.QuietReuseIff and Manifests.ReusedManifestIff; a checksum collision there is not excluded by the code either.
- WriterQueue.BuildBatchGroup: batches carry their encoded size as a number; the bytes of a merged batch are the subject of WriteBatches.
- SkipLists.ConcurrentSearch: stores and reads interleave one at a time, as release and acquire give them; a weaker memory order than that is not modelled. Nodes are indexes into a growing array instead of pointers.
- LruCaches.LRUCache.Insert: lists are sequences of handle numbers instead of intrusive links, and the shards of `ShardedLRUCache` and its locks are not modelled.
- HandleTables.HandleTable.FindPointer: a bucket is a sequence instead of a linked chain; masking by a power of two is taken as the remainder.
- LogReading.Reader.ReadRecord: the reader starts at offset 0; a later initial offset, and the exact number of bytes in a report, are not modelled.
- Blocks.BlockBuilder.Finish: that the block reads back needs its size below 2^32, since its offsets are 32-bit.
- BlockReading.BlockIter.Seek: what happens once an entry has run past the block is not modelled beyond the fact that it does; blocks are below 4 GB.
- TableBuilding.TableBuilder.Finish: blocks are not compressed, a filter policy is always there, and the file is below 4 GB, the limit of offsets inside its blocks. `Abandon` and changing options are not modelled.
- TableFiles.Open: which error a file that cannot be opened gives is not modelled; checksums are always verified.
- MemTables.MemTable.Get: the entries are a sorted sequence searched from its start; the search through the skip list is the subject of SkipLists.
- DbIterator.DBIter.Grow: writes come between the calls of the iterator and between the reads of its children, one entry at a time, but not in the middle of a call; that a search in the memtable is right whatever store falls into it is the subject of SkipLists.ConcurrentSearch.
- WriteBatches.WriteBatch.Iterate: the count is right for fewer than 2^32 updates.
- Crc32c.ExtendFast: tables are defined by the generator they denote; that the literal constants equal it, and the hardware path, are not covered.
- Filters.CreateFilter: the hash and the number of probes, 1 to 30, are parameters; deriving the latter from bits per key by floating point is not modelled.
- EditCoding.EditRoundTrip: file numbers and sizes below 2^64, strings below 2^32 bytes and levels below 7, the widths of the fields; internal keys in an edit are byte strings.
- nanopb callbacks, extensions, pointer fields and malloc, fixed-count arrays, delimited and null-terminated forms, and builds without 64-bit integers.
- PbEncoding.OStream.Write: sizes are unbounded, so `size_t` does not wrap around.
- PbDecoder.IStream.DecodeVarint32: the eight-bit counter of the bit position is not wrapped, which only concerns varints longer than any encoder writes.
- PbDecoder.FieldIter.Find: does not find the terminator of an empty message type when asked for tag 0, as the code does.
- PbDecoder.DecodeMessage: the two words of seen required fields are 64 booleans; a field with tag 0 of an empty message type counts as unknown.
- PbEvolution.EvolvedReadsBackIff: members are left out of or added to the outermost message type; the types of its submessages are the same on both sides.
- PbMerging.SubmessagesMerge: the first part is a complete message that is read to its end, as the code asks of each part for required fields.
- PbEncoding.EncodeMessage: of the errors only that a stream is full, or an array or byte array too long, is told apart from success, and which of the last two it is is not stated.
- PbRoundTrip.RoundTripIff: singular (proto3) fields have zero defaults, and the encoding is below 2^32 bytes, as lengths are 32-bit.
