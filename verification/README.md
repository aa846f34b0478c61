# Verified models of a search engine's storage and index code

csearch crawls pages, parses their HTML, and keeps inverted lists on disk. The
code that has to be exactly right sits in its parts: the embedded LevelDB 1.9.0
store, a lock-free ring between threads, the StreamVByte integer codec, gumbo's
UTF-8 layer, and the merge that turns documents into posting lists. This project
models those parts in Dafny and proves what they promise.

`dafny verify dfyconfig.toml` checks everything.

## How the modules fit together

*The store.* `Entries` says what a read means: the newest entry of a key at or
below a snapshot. `Compaction` holds the drop rules, the compaction loop and the
move of a file to the next level. `History` and `Store` make the database a state
machine whose events are the stretches one thread runs under the mutex, plus the
single effects that happen while it is released (log append, log sync, one
memtable insertion, manifest write, installation), so a commit, a flush and a
compaction are several events each and everything else may come in between.
`StoreSafety` shows that each event keeps the invariant, `StoreCrash` does so for
a crash at any point followed by recovery, and `StoreTheorems` draws the
conclusions over whole runs. `Sequential` is the store as a caller sees it, a map
changed by one operation after the other; `StoreClients` shows that callers get
just that (reads, snapshots, and durability from the request on), and
`StoreProgress` that requests are served and flushes, compactions and restarts
have the effects they should.

*Under the store.* `Coding` (fixed and variable width integers), `LogFile`
(write-ahead log format, writer, reader), `LogSound` (what the reader promises
for any file), `WriteBatch`, `Recovery` (log, batches and memtable put together, from bytes to a Get),
`SkipList` (with a reader that runs between any two stores of an insertion),
`MemTable` (entries as bytes), `Snapshots` (the circular list of live snapshots,
on the heap), `DbIter` (the user-level iterator), `Blocks` and `BlockReader`
(table blocks: builder and cursor).

*The rest.* `BufRing` (the ring as interleaved atomic steps), `StreamVByte`,
`SimdDecode` and `Chunks` (codec, vector decoder, chunk lists), `Utf8`,
`Utf8Stream` and `StringBuffers` (decoder automaton, character iterator, encoder),
`Dsort` (the inverting merge).

## Findings

Four properties a reader might expect do not hold as such; each has a concrete
input and the exact condition under which the property does hold.

- Moving a single file down without rewriting it keeps all reads exactly when no
  older entry of a moved key stays behind above the target (`MoveExactIff`). The
  merge loop itself can leave one user key in two files of a level
  (`StraddlingKeyBreaks`).
- Turning an iterator from backward to forward reaches the next key exactly when
  the preceding user key has an entry visible to the iterator; otherwise the
  current key is shown again (`DBIter.Next`, `TurningRepeatsKey`).
- The masked indices of the ring can come round between a thread's test and its
  exchange. A run keeps the tickets ordered and within capacity exactly when every
  producer exchange that succeeds finds the ring not full and every consumer
  exchange that succeeds finds it not empty (`RingSafeIff`). Fewer than `size`
  advances of an index under each thread are enough for that (`NoWrapSafe`); a
  two-slot ring reaches a state over capacity without it (`WrapBreaks`).
- Four bytes per entry hold every compressed ascending chunk of n entries exactly
  when n is 0 or at least 340 (`BufferEnoughIff`). Lists compress only at 2^23
  entries, so they are safe (`ChunkList.ListPush`).

Where documentation and code differ the model follows the code: `utf8.h` says the
iterator's mark starts at the beginning of the input, but initialisation leaves it
unset, so `Reset` needs an earlier `Mark`.

## Model

| member | source | states |
|---|---|---|
| Entries.FindIsLookup | gumbo-parser/leveldb-1.9.0/db/db_impl.cc:1051-1096 | searching memtable, immutable memtable and tables in that order and stopping at the first hit gives the newest visible entry of their union, for every key and snapshot |
| Entries.SearchExactIffOrdered | gumbo-parser/leveldb-1.9.0/db/version_set.cc:292-389 | the first-hit search is right for every key and snapshot if and only if no layer holds an entry older than one of the same key in a later layer |
| Entries.InversionMisleads | gumbo-parser/leveldb-1.9.0/db/version_set.cc:292-389 | an older entry above a newer one hides it from the reader at the newer one's number |
| Compaction.ReadsPreserved | gumbo-parser/leveldb-1.9.0/db/db_impl.cc:894-920 | replacing the inputs by what the two drop rules keep changes no read at or above the smallest snapshot, given the rest of the store |
| Compaction.KeptIffNeeded | gumbo-parser/leveldb-1.9.0/db/db_impl.cc:894-920 | an input is kept if and only if some reader from the smallest snapshot on finds it first among the inputs, unless it is a deletion that every such reader sees and whose key is at its base level: the rules drop all they may |
| Compaction.CompactionPreserves | gumbo-parser/leveldb-1.9.0/db/db_impl.cc:848-956 | on a whole version: layer order is kept, nothing new appears, and every layered Get from the smallest snapshot on is unchanged |
| Compaction.CompactedOrdered | gumbo-parser/leveldb-1.9.0/db/db_impl.cc:814-833 | installing the outputs one level down keeps newer entries above older ones |
| Compaction.HiddenByPredecessor | gumbo-parser/leveldb-1.9.0/db/db_impl.cc:894-905 | in sorted input an entry is hidden from every snapshot exactly when its direct predecessor has the same key and is at or below the smallest snapshot |
| Compaction.KeptIsSortedFilter | gumbo-parser/leveldb-1.9.0/db/db_impl.cc:894-956 | what the one-pass loop keeps is a sorted sequence and, as a set, exactly the entries the two rules keep |
| Compaction.DroppedIffNotKept | gumbo-parser/leveldb-1.9.0/db/db_impl.cc:894-920 | on intact sorted input the test on the direct predecessor drops exactly the entries that the two set-level rules drop |
| Compaction.IntactSurvivors | gumbo-parser/leveldb-1.9.0/db/db_impl.cc:864-956 | on intact input the surviving keys are exactly the kept entries, in order |
| Compaction.DamagedKept | gumbo-parser/leveldb-1.9.0/db/db_impl.cc:886-892 | no key that fails to parse is lost, and a value right behind one is not held against earlier keys |
| Compaction.LevelCursors.IsBaseLevelForKey | gumbo-parser/leveldb-1.9.0/db/version_set.cc:1388-1407 | with cursors that only move forward over ascending keys, the answer is exactly whether no deeper file's range covers the key |
| Compaction.ShouldDrop | gumbo-parser/leveldb-1.9.0/db/db_impl.cc:894-920 | from the one number carried over, drops exactly the entries shadowed by their direct predecessor and the obsolete deletions |
| Compaction.DoCompactionWork | gumbo-parser/leveldb-1.9.0/db/db_impl.cc:857-968 | for any input, with unparsable keys among it: the output files concatenated are the surviving keys in order, cut exactly where ShouldStopBefore and the size limit say, each with its true first and last key as its range; nothing is returned when a shutdown comes first |
| Compaction.OpenIff | gumbo-parser/leveldb-1.9.0/db/db_impl.cc:878-950 | an output file is open exactly while the last kept key did not fill it and no stop came since |
| Compaction.FileBoundary | gumbo-parser/leveldb-1.9.0/db/db_impl.cc:878-950 | a kept key goes into the file of the one kept before it unless that file was full or a stop came in between; otherwise it starts a file |
| Compaction.CursorsSound | gumbo-parser/leveldb-1.9.0/db/version_set.cc:1388-1407 | if each deeper level's keys lie in its file ranges, no key that the cursors call base occurs below the outputs |
| Compaction.CompactVersion | gumbo-parser/leveldb-1.9.0/db/db_impl.cc:835-991 | the loop with its cursors, run on a version and installed, keeps the layers ordered and every read from the smallest snapshot on; every entry it keeps is the newest of its key at some such snapshot, and a deletion below the bound is kept only if a deeper file covers its key |
| Compaction.MoveExactIff | gumbo-parser/leveldb-1.9.0/db/db_impl.cc:668-675 | moving a file from any layer above the target keeps every read if and only if no older entry of a moved key is left behind between them |
| Compaction.StraddlingKeyBreaks | gumbo-parser/leveldb-1.9.0/db/db_impl.cc:668-675 | the merge loop puts two versions of one key into two files; when the file of the newer one is moved on alone, the overwritten value comes back |
| Compaction.MovedOrdered | gumbo-parser/leveldb-1.9.0/db/db_impl.cc:668-675 | when nothing older is left behind, the moved version is still newest first |
| History.RecordedUnique | gumbo-parser/leveldb-1.9.0/db/db_impl.cc:1146-1154 | groups with increasing sequence ranges never give two entries the same number |
| History.RecordedNewer | gumbo-parser/leveldb-1.9.0/db/db_impl.cc:1146-1154 | every entry of a later group is newer than every entry of an earlier one |
| History.OpsLaidOut | gumbo-parser/leveldb-1.9.0/db/db_impl.cc:1225-1233 | the operations of a group are its members' batches one behind the other, in queue order, with nothing between them |
| History.ReadExtend | gumbo-parser/leveldb-1.9.0/db/db_impl.cc:1063-1087 | if tables answer like a history, tables plus newer entries answer like the history plus those entries |
| Store.BuildBatchGroup | gumbo-parser/leveldb-1.9.0/db/db_impl.cc:1192-1237 | the group is the longest queue prefix whose members may join the leader, and there are offsets at which each member's batch stands whole in the result, in queue order, from 0 to the end |
| Store.GroupBounded | gumbo-parser/leveldb-1.9.0/db/db_impl.cc:1198-1206 | a group carries only its leader's bytes, or at most 128 KB more than a leader of up to 128 KB, or at most 1 MB |
| Store.GroupMaximal | gumbo-parser/leveldb-1.9.0/db/db_impl.cc:1208-1224 | only a sync write behind a leader without sync, or a batch that would exceed the limit, is left for the next group |
| Sequential.WritersAreOps | gumbo-parser/leveldb-1.9.0/db/db_impl.cc:1192-1237 | applying a group's numbered operations is applying its writers' batches one writer after the other |
| Sequential.LastWriterDecides | gumbo-parser/leveldb-1.9.0/db/db_impl.cc:1192-1237 | after a group a key has the value of the last operation on it of the last member that has one |
| Sequential.RecordedIsMap | gumbo-parser/leveldb-1.9.0/db/db_impl.cc:1146-1169 | reading the newest visible entry of the recorded groups is reading the map that the groups, writers and operations change in order |
| StoreSafety.EnqueueKeeps | gumbo-parser/leveldb-1.9.0/db/db_impl.cc:1127-1140 | queueing a writer keeps the store invariant, arrival order included |
| StoreSafety.BuildGroupKeeps | gumbo-parser/leveldb-1.9.0/db/db_impl.cc:1143-1149 | starting a group reserves the numbers right above the last sequence and keeps the invariant |
| StoreSafety.AppendLogKeeps | gumbo-parser/leveldb-1.9.0/db/db_impl.cc:1156-1157 | appending the group to the log, before any of it is visible, keeps the invariant |
| StoreSafety.SyncLogKeeps | gumbo-parser/leveldb-1.9.0/db/db_impl.cc:1158-1160 | after the sync every record of the log is in stable storage; the invariant stays |
| StoreSafety.InsertOneKeeps | gumbo-parser/leveldb-1.9.0/db/db_impl.cc:1161-1163 | one memtable insertion, with anything in between, keeps the invariant |
| StoreSafety.CommitKeeps | gumbo-parser/leveldb-1.9.0/db/db_impl.cc:1164-1188 | publishing the last sequence number and acknowledging the members keeps the invariant |
| StoreSafety.SwitchKeeps | gumbo-parser/leveldb-1.9.0/db/db_impl.cc:1277-1297 | switching to a new memtable and log keeps memtables and their logs in step |
| StoreSafety.SnapshotKeeps | gumbo-parser/leveldb-1.9.0/db/db_impl.cc:1108-1111 | a new snapshot lies at or above every compaction bound and cuts no group |
| StoreSafety.ReleaseKeeps | gumbo-parser/leveldb-1.9.0/db/db_impl.cc:1113-1116 | releasing any snapshot keeps the invariant, for a compaction in progress as well |
| StoreSafety.FlushKeeps | gumbo-parser/leveldb-1.9.0/db/db_impl.cc:440-517 | writing the immutable memtable's table and its edit, while writes, reads and compactions go on, keeps the invariant |
| StoreSafety.FlushDisk | gumbo-parser/leveldb-1.9.0/db/db_impl.cc:464-483 | the version with the flushed table, on top or as deep as no older key lies above it, still answers like the flushed history |
| StoreSafety.CompFlush | gumbo-parser/leveldb-1.9.0/db/db_impl.cc:464-483 | a flush during a compaction keeps the compaction's inputs closed and its base-level answers sound |
| StoreSafety.BeginCompactionKeeps | gumbo-parser/leveldb-1.9.0/db/db_impl.cc:848-855 | fixing the smallest snapshot at the start is enough for the whole compaction |
| StoreSafety.EndCompactionKeeps | gumbo-parser/leveldb-1.9.0/db/db_impl.cc:981-991 | the edit of a finished compaction leaves every read at a live snapshot as it was |
| StoreSafety.CompactedDisk | gumbo-parser/leveldb-1.9.0/db/db_impl.cc:814-833 | the compacted version answers like the flushed history from the raised horizon on |
| StoreSafety.AbortCompactionKeeps | gumbo-parser/leveldb-1.9.0/db/db_impl.cc:958-960 | giving a compaction up on shutdown or error keeps the invariant |
| StoreSafety.TrivialMoveKeeps | gumbo-parser/leveldb-1.9.0/db/db_impl.cc:668-675 | a move of any level-0 file, or of a file one level down, that leaves nothing older behind keeps the invariant |
| StoreSafety.InstallKeeps | gumbo-parser/leveldb-1.9.0/db/version_set.cc:737-828 | installing the edit after the manifest write, with the mutex released between them, keeps the invariant |
| StoreSafety.DeleteLogsKeeps | gumbo-parser/leveldb-1.9.0/db/db_impl.cc:215-263 | deleting logs below the installed log number loses nothing that recovery needs |
| StoreCrash.ReplayIs | gumbo-parser/leveldb-1.9.0/db/db_impl.cc:299-343 | the tables of the manifest on disk plus the replayed logs are the flushed history followed by a prefix of each live log, at whichever point between edit, installation and log deletion the crash came |
| StoreCrash.RecoveredDisk | gumbo-parser/leveldb-1.9.0/db/db_impl.cc:392-438 | the level-0 tables recovery writes from the replayed records, however it splits them, answer like the replayed history |
| StoreCrash.AckedSurvive | gumbo-parser/leveldb-1.9.0/db/db_impl.cc:1156-1163 | every acknowledged sync write is in the surviving part of the logs or in a table |
| StoreCrash.CrashKeeps | gumbo-parser/leveldb-1.9.0/db/db_impl.cc:265-343 | reopening after a crash in any state restores the whole invariant over exactly that surviving history |
| StoreTheorems.StepKeeps | gumbo-parser/leveldb-1.9.0/db/db_impl.cc:1127-1188 | every enabled event of every thread keeps the store invariant |
| StoreTheorems.Reachable | gumbo-parser/leveldb-1.9.0/db/db_impl.cc:835-991 | the invariant holds in every state of every run |
| StoreTheorems.GetIsHistory | gumbo-parser/leveldb-1.9.0/db/db_impl.cc:1051-1096 | a Get at any sequence number from the compaction horizon to the last one returns what the committed groups say |
| StoreTheorems.SnapshotStable | gumbo-parser/leveldb-1.9.0/db/db_impl.cc:1051-1116 | over any crash-free stretch of any run, a snapshot that is live at both ends returns the same value for every key, whatever was written, flushed and compacted meanwhile |
| StoreTheorems.HistoryGrows | gumbo-parser/leveldb-1.9.0/db/db_impl.cc:1164-1169 | apart from crashes only a commit changes the history, by appending its group right above the last sequence number |
| StoreTheorems.HistoryStable | gumbo-parser/leveldb-1.9.0/db/db_impl.cc:1127-1188 | later commits never change what the history says at an earlier sequence number |
| StoreTheorems.LatestGet | gumbo-parser/leveldb-1.9.0/db/db_impl.cc:1056-1061 | a Get without a snapshot returns the last committed state |
| StoreTheorems.UnlockedGet | gumbo-parser/leveldb-1.9.0/db/db_impl.cc:1063-1087 | the read that runs after the mutex is released returns what it would have returned under it, although the pinned memtable may have grown, been switched out and been flushed meanwhile |
| StoreTheorems.SyncedWritesSurvive | gumbo-parser/leveldb-1.9.0/db/db_impl.cc:1156-1163 | once acknowledged, a sync write is part of the history for the rest of the run, through any number of crashes at any points |
| StoreTheorems.CrashInventsNothing | gumbo-parser/leveldb-1.9.0/db/db_impl.cc:299-343 | after a crash every group present was committed before or is the one group that was logged but not acknowledged, groups keep their order, and reads are those of the surviving groups |
| StoreTheorems.AtomicVisibility | gumbo-parser/leveldb-1.9.0/db/db_impl.cc:1146-1169 | no snapshot and no value of the last sequence number shows part of a group |
| StoreTheorems.OneGroupInOrder | gumbo-parser/leveldb-1.9.0/db/db_impl.cc:1127-1188 | each write is in at most one group, groups follow arrival order, and their sequence ranges are disjoint and increasing |
| StoreTheorems.SyncLeads | gumbo-parser/leveldb-1.9.0/db/db_impl.cc:1211-1216 | no sync writer is ever served by a leader that does not sync |
| StoreClients.GetIsMap | gumbo-parser/leveldb-1.9.0/db/db_impl.cc:1051-1096 | in every reachable state a Get returns what the committed operations, applied one after the other, leave at the key |
| StoreClients.ReadYourWrites | gumbo-parser/leveldb-1.9.0/db/db_impl.cc:1143-1169 | right after a commit a key written by the group holds the value of the last operation on it in the last member, in queue order, that has one |
| StoreClients.SnapshotCovers | gumbo-parser/leveldb-1.9.0/db/db_impl.cc:1108-1111 | a new snapshot lies at or above the number of everything committed when it is taken |
| StoreClients.SnapshotFreezes | gumbo-parser/leveldb-1.9.0/db/db_impl.cc:1051-1111 | for as long as it lives, a snapshot shows the map as the operations committed when it was taken left it |
| StoreClients.ReleaseExact | gumbo-parser/leveldb-1.9.0/db/db_impl.cc:1113-1116 | releasing takes out the named snapshot once and no other |
| StoreClients.WritersFrom | gumbo-parser/leveldb-1.9.0/db/db_impl.cc:1127-1188 | one event queues only the write it was asked for, answers only who was queued and commits only what was queued or logged |
| StoreClients.AllRequested | gumbo-parser/leveldb-1.9.0/db/db_impl.cc:1127-1136 | every writer that is queued, answered or in the history stands for a call, with that call's batch, sync flag and size |
| StoreClients.RequestRecorded | gumbo-parser/leveldb-1.9.0/db/db_impl.cc:1127-1136 | the writer with a call's number is the one that call asked for, with its batch and its sync flag |
| StoreClients.SyncRequestSurvives | gumbo-parser/leveldb-1.9.0/db/db_impl.cc:1127-1163 | a write that was asked for with sync and answered is in the history from then on, through any crashes, with exactly the batch asked for |
| StoreProgress.RequestKept | gumbo-parser/leveldb-1.9.0/db/db_impl.cc:1127-1188 | without a crash a request is either waiting or answered, never both or neither, and an answered batch is in the history |
| StoreProgress.NextEvent | gumbo-parser/leveldb-1.9.0/db/db_impl.cc:1127-1188 | while somebody waits an event of the write path is enabled, and it brings the front writer nearer its answer |
| StoreProgress.QueueDrains | gumbo-parser/leveldb-1.9.0/db/db_impl.cc:1127-1188 | from every reachable state there are events that empty the queue, after which everybody who waited has an answer |
| StoreProgress.SwitchEffect | gumbo-parser/leveldb-1.9.0/db/db_impl.cc:1277-1297 | with no older memtable waiting the switch is possible; all entries move to the older memtable with their log, and a new log begins |
| StoreProgress.FlushDone | gumbo-parser/leveldb-1.9.0/db/db_impl.cc:486-517 | a waiting memtable can be flushed; it is then gone from memory, on top of the tables, and only the current log is left |
| StoreProgress.FlushEffect | gumbo-parser/leveldb-1.9.0/db/db_impl.cc:440-484 | a flush puts the entries into the level chosen, or into a new level-0 file, and changes no other layer |
| StoreProgress.QuietEvents | gumbo-parser/leveldb-1.9.0/db/db_impl.cc:1051-1096 | no event but a commit or a crash changes what a current read returns |
| StoreProgress.CompactionBound | gumbo-parser/leveldb-1.9.0/db/db_impl.cc:848-855 | a compaction works from the oldest live snapshot, or from the last sequence number if there is none |
| StoreProgress.CompactionEffect | gumbo-parser/leveldb-1.9.0/db/db_impl.cc:814-833 | the edit takes exactly the inputs out of the tables and puts the kept entries in |
| StoreProgress.MoveEffect | gumbo-parser/leveldb-1.9.0/db/db_impl.cc:668-675 | a trivial move takes the file out of its level, puts it into the next one and touches no other |
| StoreProgress.AbortEffect | gumbo-parser/leveldb-1.9.0/db/db_impl.cc:720-735 | a compaction that is given up leaves the tables alone and lets another begin |
| StoreProgress.LogsDeleted | gumbo-parser/leveldb-1.9.0/db/db_impl.cc:215-263 | every log that a recovery would read is kept as it is, and while no edit is pending no other is kept |
| StoreProgress.CrashAnywhere | gumbo-parser/leveldb-1.9.0/db/db_impl.cc:265-343 | a crash may strike in any reachable state and leave of every live log any part that includes what was synced |
| StoreProgress.RestartLosesNothing | gumbo-parser/leveldb-1.9.0/db/db_impl.cc:299-343 | if the logs survive whole, reopening brings back every committed group and the one already logged |
| StoreProgress.RestartReads | gumbo-parser/leveldb-1.9.0/db/db_impl.cc:299-343 | a store that was idle when its process died answers every read as before |
| StoreProgress.RestartNumber | gumbo-parser/leveldb-1.9.0/db/db_impl.cc:323-341 | numbering goes on right behind the last surviving group or the manifest's last number |
| Coding.Fixed32RoundTrip | gumbo-parser/leveldb-1.9.0/util/coding.cc:9-18 | decoding a fixed 32-bit integer returns it, whatever follows |
| Coding.Fixed64RoundTrip | gumbo-parser/leveldb-1.9.0/util/coding.cc:20-33 | the same for 64 bits, decoded as two halves |
| Coding.Fixed32Is | gumbo-parser/leveldb-1.9.0/util/coding_test.cc:55-62 | a fixed 32-bit field is the number its four bytes spell, least significant first |
| Coding.Fixed64Is | gumbo-parser/leveldb-1.9.0/util/coding_test.cc:64-75 | a fixed 64-bit field is the number its eight bytes spell, least significant first |
| Coding.UnmaskMask | gumbo-parser/leveldb-1.9.0/util/crc32c.h:31-41 | unmasking a masked checksum returns it, for all 2^32 values |
| Coding.MaskedValues | gumbo-parser/leveldb-1.9.0/util/crc32c.h:24-34 | the masked forms of four values, which fix the rotation and the constant |
| Coding.EncodeVarint32 | gumbo-parser/leveldb-1.9.0/util/coding.cc:47-73 | the five unrolled branches write the seven-bits-a-byte form in at most five bytes |
| Coding.GetVarint32Back | gumbo-parser/leveldb-1.9.0/util/coding.cc:112-142 | reading a varint returns the number and exactly what follows it |
| Coding.ReadVarintExact | gumbo-parser/leveldb-1.9.0/util/coding.cc:112-129 | on any input a number is read if and only if a varint of few enough bytes stands at the front, over-long ones included, and it is the number that varint spells |
| Coding.GetPrefixedBack | gumbo-parser/leveldb-1.9.0/util/coding.cc:98-101 | a length-prefixed string is read back with exactly the rest left |
| Coding.GetPrefixedExact | gumbo-parser/leveldb-1.9.0/util/coding.cc:182-191 | on any input a slice is taken if and only if a length in a varint and that many bytes stand at the front |
| LogFile.PrefixReadBack | gumbo-parser/leveldb-1.9.0/db/log_reader.cc:59-256 | for every list of records and every n, the first n bytes of the log give back exactly the leading records whose last fragment ends by byte n |
| LogFile.CompleteIs | gumbo-parser/leveldb-1.9.0/db/log_writer.cc:27-73 | every n has its number of complete records, and it is all of them from the log's length on |
| LogFile.WriteCutRead | gumbo-parser/leveldb-1.9.0/db/log_reader.cc:59-256 | writing any records through the writer, cutting the file at any byte and reading it returns exactly the complete records; an uncut log gives back all and reports nothing |
| LogFile.LogSilent | gumbo-parser/leveldb-1.9.0/db/log_reader.cc:168-177 | reading an intact log reports no dropped bytes |
| LogFile.RoundTrip | gumbo-parser/leveldb-1.9.0/db/log_writer.cc:27-100 | a whole log is read back as written, empty and multi-block records included |
| LogFile.RecordRead | gumbo-parser/leveldb-1.9.0/db/log_reader.cc:59-162 | a record whose fragments are all there is reassembled, and reading goes on right behind it |
| LogFile.RecordCut | gumbo-parser/leveldb-1.9.0/db/log_reader.cc:59-162 | a record whose last byte is missing is not returned, not even in part |
| LogFile.PhysicalRead | gumbo-parser/leveldb-1.9.0/db/log_reader.cc:179-256 | one physical record passes the length, type and checksum tests and is returned exactly |
| LogFile.FragmentCut | gumbo-parser/leveldb-1.9.0/db/log_reader.cc:196-218 | a fragment cut anywhere ends the log or is bad with nothing after it |
| LogFile.Writer.AddRecord | gumbo-parser/leveldb-1.9.0/db/log_writer.cc:27-73 | appends exactly the specified fragments and trailers for its block position |
| LogFile.Writer.EmitPhysicalRecord | gumbo-parser/leveldb-1.9.0/db/log_writer.cc:75-100 | appends header, masked checksum and payload, and advances the block offset |
| LogFile.Reader.ReadPhysicalRecord | gumbo-parser/leveldb-1.9.0/db/log_reader.cc:179-256 | reading block by block gives what reading the file directly gives, for any file, and reports the same; what that is, byte for byte, is said by LogSound.PhysicalVerdict |
| LogFile.Reader.ReadHeader | gumbo-parser/leveldb-1.9.0/db/log_reader.cc:205-255 | the header checks in order, each with its report, agree with the checks on the bytes of the block |
| LogFile.Reader.ReadRecord | gumbo-parser/leveldb-1.9.0/db/log_reader.cc:59-162 | reassembly over any file, corrupt ones included, returns the specified record and reports the specified sizes |
| LogFile.ReadLog | gumbo-parser/leveldb-1.9.0/db/db_impl.cc:388-399 | the recovery loop collects exactly the records and reports of the file |
| LogSound.PhysicalVerdict | gumbo-parser/leveldb-1.9.0/db/log_reader.cc:179-256 | on any file: where the next header is, and from its bytes alone whether the file ends, the rest of the block is dropped (length too large, or checksum mismatch, reported with its size; zero type and no payload, silently), or a record of that type and payload is returned |
| LogSound.RecordsSound | gumbo-parser/leveldb-1.9.0/db/log_reader.cc:59-256 | on any file every record returned is the concatenation of payloads of neighbouring fragments, each inside its block, with its stored length and a matching checksum, typed FULL or FIRST, MIDDLE, ..., LAST, and the records stand in the file in order |
| LogSound.RecordSound | gumbo-parser/leveldb-1.9.0/db/log_reader.cc:59-162 | the same for one record, from any state of reassembly |
| LogSound.ReadingConserves | gumbo-parser/leveldb-1.9.0/db/log_reader.cc:59-177 | on any file the payload bytes that pass the header checks and the bytes these checks report equal the bytes returned in records plus the bytes reported |
| LogSound.OtherTypes | gumbo-parser/leveldb-1.9.0/db/log_reader.cc:134-158 | type byte 5 is taken for the end of the file, 6 for a bad record, and any other unknown one is reported with its payload |
| LogSound.FragmentWritten | gumbo-parser/leveldb-1.9.0/db/log_writer.cc:33-96 | the writer fills a block without room for a header with zeros, and each fragment has its length, type, payload and masked checksum in place and fills its block unless the record ends |
| Recovery.RecoverLogFile | gumbo-parser/leveldb-1.9.0/db/db_impl.cc:388-416 | every record of any file goes into the memtable up to its first fault under consecutive numbers, too short ones are reported by size, and the largest number claimed is returned |
| Recovery.CrashAndRecover | gumbo-parser/leveldb-1.9.0/db/db_impl.cc:345-438 | batches written through the log writer, cut at any byte, and recovered: the memtable holds exactly the operations of the batches whose records were complete, under the numbers they were written with |
| Recovery.RecoverAndGet | gumbo-parser/leveldb-1.9.0/db/db_impl.cc:345-438 | last write wins, from bytes to answer: after a crash at any byte and recovery a Get returns what the last operation on the key in the complete batches wrote, and finds nothing exactly when no complete batch touches the key |
| Recovery.NewestIsLast | gumbo-parser/leveldb-1.9.0/db/write_batch.cc:112-134 | the newest entry of a key in a table filled from batches is that of the last operation on the key |
| Recovery.RepAdds | gumbo-parser/leveldb-1.9.0/db/db_impl.cc:399-416 | a whole batch adds its operations under consecutive numbers from the header's on |
| Recovery.MaxWritten | gumbo-parser/leveldb-1.9.0/db/db_impl.cc:411-416 | the largest number recovered is that of the last operation written |
| WriteBatch.IterateBack | gumbo-parser/leveldb-1.9.0/db/write_batch.cc:42-80 | iterating a batch yields its operations in order and reports success |
| WriteBatch.ReadRecordBack | gumbo-parser/leveldb-1.9.0/db/write_batch.cc:53-73 | one record is read back with exactly the rest left |
| WriteBatch.ReadRecordExact | gumbo-parser/leveldb-1.9.0/db/write_batch.cc:53-73 | on any bytes a record is accepted if and only if an operation is spelled there, and otherwise the tag decides which complaint is made |
| WriteBatch.WalkExact | gumbo-parser/leveldb-1.9.0/db/write_batch.cc:42-80 | on any bytes the handler sees the operations spelled from the front on, as many as there are, and the walk ends well only at the end of the input |
| WriteBatch.IterateVerdict | gumbo-parser/leveldb-1.9.0/db/write_batch.cc:42-80 | fewer than twelve bytes are too small, a failed walk says why, and a walk that ends well must match the count in the header |
| WriteBatch.Batch.Put | gumbo-parser/leveldb-1.9.0/db/write_batch.cc:98-103 | patching the count and appending keeps the bytes those of the operations plus this one |
| WriteBatch.Batch.Delete | gumbo-parser/leveldb-1.9.0/db/write_batch.cc:105-109 | the same for a deletion |
| WriteBatch.Batch.Append | gumbo-parser/leveldb-1.9.0/db/write_batch.cc:141-145 | the bytes become those of both batches' operations, in order, under the first one's sequence number |
| WriteBatch.Batch.SetSequence | gumbo-parser/leveldb-1.9.0/db/write_batch.cc:94-96 | changes the sequence number and no operation |
| WriteBatch.InsertInto | gumbo-parser/leveldb-1.9.0/db/write_batch.cc:112-134 | for any bytes: the memtable gains exactly the records before the first fault under consecutive numbers, and the status is that of the walk |
| SkipList.List.FindGreaterOrEqual | gumbo-parser/leveldb-1.9.0/db/skiplist.h:259-278 | from any height, also one raised before its level is linked, returns the least node not before the key and the predecessor on every level passed |
| SkipList.List.FindLessThan | gumbo-parser/leveldb-1.9.0/db/skiplist.h:280-299 | returns the greatest node before the key, or the head |
| SkipList.List.FindLast | gumbo-parser/leveldb-1.9.0/db/skiplist.h:301-319 | returns the maximum, or the head of an empty list |
| SkipList.SplitNodes | gumbo-parser/leveldb-1.9.0/db/skiplist.h:252-299 | the nodes on the two sides of the place a search finds are the least not before the key and the greatest before it |
| SkipList.List.Insert | gumbo-parser/leveldb-1.9.0/db/skiplist.h:333-367 | the new key stands at its place in the order, every other key where it was, and it is linked into every level below its height and into no other |
| SkipList.List.StoreOwnLink | gumbo-parser/leveldb-1.9.0/db/skiplist.h:361-364 | after the new node's own link is stored the structure is valid with unchanged contents |
| SkipList.List.StorePrevLink | gumbo-parser/leveldb-1.9.0/db/skiplist.h:365-366 | after the predecessor's link is stored the level holds the new node at its place and the structure is valid |
| SkipList.PublishLinks | gumbo-parser/leveldb-1.9.0/db/skiplist.h:361-366 | redirecting one predecessor link splices the node into the chain and nothing else |
| SkipList.InsertAscending | gumbo-parser/leveldb-1.9.0/db/skiplist.h:333-367 | inserting where the search split the list keeps it ascending |
| SkipList.LoadKeeps | gumbo-parser/leveldb-1.9.0/db/skiplist.h:259-278 | one load of a reader, in any state an insertion can be in, keeps the reader on track, and an answer is right for that state |
| SkipList.OwnStoreKeeps | gumbo-parser/leveldb-1.9.0/db/skiplist.h:361-364 | between any two stores of any insertion: storing the node's own link leaves a valid structure in which nothing moved |
| SkipList.PrevStoreKeeps | gumbo-parser/leveldb-1.9.0/db/skiplist.h:365-366 | storing the predecessor's link leaves a valid structure whose levels only gained the new key |
| SkipList.AlwaysOk | gumbo-parser/leveldb-1.9.0/db/skiplist.h:333-367 | in every state of a search interleaved with the single stores of any number of insertions, the structure is valid and the reader stands on a node before its key |
| SkipList.ReaderExact | gumbo-parser/leveldb-1.9.0/db/skiplist.h:350-366 | such a search returns exactly the least node not before its key in the list as it is at its last load |
| MemTable.MemTable.Add | gumbo-parser/leveldb-1.9.0/db/memtable.cc:82-106 | encodes the entry and inserts it; the table gains exactly this entry |
| MemTable.MemTable.Get | gumbo-parser/leveldb-1.9.0/db/memtable.cc:108-143 | through the encoded bytes: the value or deletion of the newest entry of the key at or below the snapshot, and not-present exactly when there is none |
| MemTable.MemTable.ReadEntry | gumbo-parser/leveldb-1.9.0/db/memtable.cc:113-141 | decoding the entry found compares the user key and yields its value or deletion |
| MemTable.MemTable.NothingEqual | gumbo-parser/leveldb-1.9.0/db/memtable.cc:82-106 | distinct sequence numbers give the distinct keys that the skip list demands |
| MemTable.EntryOrder | gumbo-parser/leveldb-1.9.0/db/dbformat.cc:50-66 | comparing encoded entries by user key and then descending tag is transitive and irreflexive for every user comparator that is a weak order |
| MemTable.EncodeBack | gumbo-parser/leveldb-1.9.0/db/memtable.cc:85-104 | an encoded entry decodes to its key, tag and value |
| MemTable.EntryFormat | gumbo-parser/leveldb-1.9.0/db/memtable.cc:85-104 | an entry is the user key, a type byte (1 for a value, 0 for a deletion) and the sequence number in seven bytes, length first, and then the value |
| MemTable.LookupBack | gumbo-parser/leveldb-1.9.0/db/dbformat.cc:121-138 | the lookup key decodes to the user key with the snapshot's tag |
| MemTable.BeforeLookup | gumbo-parser/leveldb-1.9.0/db/dbformat.cc:12-21 | exactly the smaller user keys and the versions newer than the snapshot sort before the lookup key |
| MemTable.SeekFinds | gumbo-parser/leveldb-1.9.0/db/memtable.cc:108-121 | the first entry not before the lookup key is the newest visible one if it has the key, and otherwise none is visible |
| Snapshots.SnapshotList.New | gumbo-parser/leveldb-1.9.0/db/snapshot.h:41-50 | splices a node between the last one and the dummy head; the ring is linked both ways and holds the old snapshots and then this one |
| Snapshots.SnapshotList.Delete | gumbo-parser/leveldb-1.9.0/db/snapshot.h:52-57 | takes out exactly the given node; all others keep their order and links |
| Snapshots.SnapshotList.Empty | gumbo-parser/leveldb-1.9.0/db/snapshot.h:37-37 | the head points to itself exactly when no snapshot is live |
| Snapshots.SnapshotList.Oldest | gumbo-parser/leveldb-1.9.0/db/snapshot.h:38-38 | the first node has the smallest number of all live snapshots |
| Snapshots.SnapshotList.Newest | gumbo-parser/leveldb-1.9.0/db/snapshot.h:39-39 | the last node has the largest number |
| Snapshots.Unlink | gumbo-parser/leveldb-1.9.0/db/snapshot.h:54-55 | two pointer stores cut a node out of any ring and leave a ring |
| Snapshots.Link | gumbo-parser/leveldb-1.9.0/db/snapshot.h:42-48 | four pointer stores close the ring over a new node |
| DbIter.ShownIsNewest | gumbo-parser/leveldb-1.9.0/db/db_iter.cc:155-185 | the entries the iterator shows are exactly the newest visible ones that are values |
| DbIter.LiveIsSnapshot | gumbo-parser/leveldb-1.9.0/db/db_iter.cc:155-185 | the shown pairs are exactly the snapshot's map, in ascending key order |
| DbIter.DBIter.FindNextUserEntry | gumbo-parser/leveldb-1.9.0/db/db_iter.cc:155-185 | lands on the first shown entry from the given place on, skipping hidden and deleted keys |
| DbIter.DBIter.FindPrevUserEntry | gumbo-parser/leveldb-1.9.0/db/db_iter.cc:214-254 | lands on the last shown entry before the given place |
| DbIter.DBIter.Seek | gumbo-parser/leveldb-1.9.0/db/db_iter.cc:256-268 | lands on the first shown entry whose key is not below the target |
| DbIter.DBIter.SeekToFirst | gumbo-parser/leveldb-1.9.0/db/db_iter.cc:270-279 | lands on the first shown entry |
| DbIter.DBIter.SeekToLast | gumbo-parser/leveldb-1.9.0/db/db_iter.cc:281-286 | lands on the last shown entry |
| DbIter.DBIter.Next | gumbo-parser/leveldb-1.9.0/db/db_iter.cc:129-153 | finds the exact successor when going forward, or when turning round and the preceding user key has a visible entry; when turning round without one it stays on the current entry |
| DbIter.DBIter.Prev | gumbo-parser/leveldb-1.9.0/db/db_iter.cc:187-212 | finds the exact predecessor from either direction |
| DbIter.ScanForward | gumbo-parser/leveldb-1.9.0/db/db_iter.cc:129-185 | a full forward scan returns the snapshot's pairs in ascending order |
| DbIter.ScanBackward | gumbo-parser/leveldb-1.9.0/db/db_iter.cc:187-254 | a full backward scan returns the shown pairs from the last to the first |
| DbIter.BackwardIsReverse | gumbo-parser/leveldb-1.9.0/db/db_iter.cc:187-254 | backward pairs are the forward pairs reversed |
| DbIter.TurningRepeatsKey | gumbo-parser/leveldb-1.9.0/db/db_iter.cc:132-152 | a concrete sequence on which Prev followed by Next shows the same key twice |
| Blocks.BlockBuilder.Add | gumbo-parser/leveldb-1.9.0/table/block_builder.cc:73-107 | the buffer is the entry format of all pairs added, with every K-th stored whole and its offset recorded as a restart point |
| Blocks.BlockBuilder.Finish | gumbo-parser/leveldb-1.9.0/table/block_builder.cc:63-71 | appends the restart offsets and their number |
| Blocks.BlockBuilder.Reset | gumbo-parser/leveldb-1.9.0/table/block_builder.cc:48-55 | back to an empty block |
| Blocks.MatchPrefix | gumbo-parser/leveldb-1.9.0/table/block_builder.cc:79-86 | the loop finds the length of the longest common prefix |
| Blocks.ScanBack | gumbo-parser/leveldb-1.9.0/table/block_builder.cc:16-27 | decoding the buffer by the entry format returns every pair added, for every list of pairs and every interval |
| Blocks.DecodedAt | gumbo-parser/leveldb-1.9.0/table/block.cc:52-75 | each entry decodes at its own offset after the previous key, and an entry at a restart point after any key |
| Blocks.EntryFormat | gumbo-parser/leveldb-1.9.0/table/block_builder.cc:79-106 | an entry is three varints, the rest of its key and its value; the first varint is the length of the longest prefix shared with the key before, and 0 at every restart |
| Blocks.ShortcutSame | gumbo-parser/leveldb-1.9.0/table/block.cc:57-68 | the shortcut for three one-byte lengths gives what reading three varints gives |
| BlockReader.FinishedHolds | gumbo-parser/leveldb-1.9.0/table/block.cc:18-37 | a finished block opens with the right number and place of restart points, and restart point j is the offset of entry j*K |
| BlockReader.RestartRead | gumbo-parser/leveldb-1.9.0/table/block.cc:168-180 | the entry at every restart point decodes on its own |
| BlockReader.BlockIter.ParseNextKey | gumbo-parser/leveldb-1.9.0/table/block.cc:225-251 | on any block: the next pair, the end, or corruption, and the restart index of the new position |
| BlockReader.BlockIter.Next | gumbo-parser/leveldb-1.9.0/table/block.cc:138-141 | moves to the next entry, or past the last; on any block, to what follows the current entry or to the end |
| BlockReader.BlockIter.Prev | gumbo-parser/leveldb-1.9.0/table/block.cc:143-162 | moves to the entry before, found by scanning on from a restart point below it; on any block, backward or to the end |
| BlockReader.BlockIter.SeekToFirst | gumbo-parser/leveldb-1.9.0/table/block.cc:204-207 | moves to the first entry of a block the builder made; any block is handled |
| BlockReader.BlockIter.SeekToLast | gumbo-parser/leveldb-1.9.0/table/block.cc:209-214 | moves to the last entry of a block the builder made; any block is handled |
| BlockReader.BlockIter.Seek | gumbo-parser/leveldb-1.9.0/table/block.cc:164-202 | on a block built from ascending keys, binary search over restart points and a linear scan end on the first key not below the target, under any transitive order; corruption is reported only for other blocks |
| BufRing.StepKeeps | buf_ring.h:56-118 | every step of every thread keeps the ring invariant, unless it is an exchange that succeeds on a full ring or on an empty one |
| BufRing.RingSafe | buf_ring.h:56-118 | over every interleaving of such steps the tickets satisfy cons_tail <= cons_head <= prod_tail <= prod_head <= cons_tail + size - 1, and the items returned are the first items reserved, in order: none lost, doubled or swapped |
| BufRing.RingSafeIff | buf_ring.h:56-118 | a run keeps the tickets ordered and within capacity if and only if every producer exchange that succeeds in it finds the ring not full and every consumer exchange finds it not empty |
| BufRing.UnguardedBreaks | buf_ring.h:71-72 | one exchange that succeeds on a full or an empty ring breaks the order of the tickets at once |
| BufRing.NoWrapGuarded | buf_ring.h:63-72 | an index that advanced fewer than size times since the thread loaded it makes the exchange safe |
| BufRing.NoWrapSafe | buf_ring.h:56-118 | runs in which no index comes round under a thread keep the invariant throughout |
| BufRing.SlotsNotShared | buf_ring.h:73-115 | no two threads own the same slot at a time, producers and consumers alike |
| BufRing.ReserveKeeps | buf_ring.h:59-73 | a producer exchange that succeeds on a ring that is not full takes the next ticket |
| BufRing.ClaimKeeps | buf_ring.h:97-106 | a consumer exchange that succeeds on a ring that is not empty takes the next published ticket |
| BufRing.EnqSearchKeeps | buf_ring.h:58-72 | the retry loop, with the continue that falls into the exchange, keeps the invariant |
| BufRing.FullWasFull | buf_ring.h:63-68 | over any run in which no index comes round under a thread, an enqueue that gives up saw the ring full at one instant of its call |
| BufRing.EmptyWasEmpty | buf_ring.h:97-103 | a dequeue that returns nothing found the ring empty at that instant, and one that goes on saw a published item, while fewer than size items were published since it loaded the head |
| BufRing.SoloDequeue | buf_ring.h:90-118 | a dequeue that nobody interrupts takes the oldest item out of a ring that has one and returns it |
| BufRing.SoloDequeueEmpty | buf_ring.h:97-103 | a dequeue on an empty ring returns nothing and changes nothing |
| BufRing.SoloEnqueue | buf_ring.h:56-83 | an enqueue that nobody interrupts puts its item behind all others of a ring with room |
| BufRing.SoloEnqueueFull | buf_ring.h:63-68 | an enqueue on a full ring gives up and leaves the ring as it was |
| BufRing.RecheckSwaps | buf_ring.h:63-72 | a producer that finds the consumer's tail moved between its two looks goes straight to the exchange |
| BufRing.FullIs | buf_ring.h:211-216 | the full test is exact on tickets |
| BufRing.EmptyIs | buf_ring.h:218-223 | the empty test is exact on tickets |
| BufRing.CountIs | buf_ring.h:225-231 | the count is the number of published and not yet released tickets, in 32-bit arithmetic |
| BufRing.WrapBreaks | buf_ring.h:71-72 | a reachable state of a two-slot ring holds more reservations than its capacity when an index comes round under a stalled thread |
| StreamVByte.RoundTrip | streamvbytedelta.c:278-337 | for every array, sorted or not, every starting value and any bytes behind, decoding the encoding returns the array and ends where the data end |
| StreamVByte.DecodedLocal | streamvbytedelta.c:393-438 | what a stream decodes to does not depend on bytes behind its data |
| StreamVByte.WordOfBytes | streamvbytedelta.c:278-302 | the shortest little-endian form of a value reads back as the value |
| StreamVByte.BytesMinimal | streamvbytedelta.c:278-302 | a delta is stored in as few bytes as hold it, least significant first |
| StreamVByte.PaddingZero | streamvbytedelta.c:304-327 | the codes of the last key byte that stand for no integer are zero |
| StreamVByte.EncodeData | streamvbytedelta.c:278-302 | writes the value in as few bytes as it needs and returns that length's code |
| StreamVByte.DeltaEncode | streamvbytedelta.c:304-337 | the pointer-advancing encoder fills the buffer with exactly the specified keys and data and returns their size |
| SimdDecode.DecodeScalar | streamvbytedelta.c:393-438 | the scalar loop writes exactly the decoded integers and returns the position after them |
| SimdDecode.LaneIsWord | streamvbytedelta.c:339-351 | for every key byte the table-driven shuffle puts each integer, zero-extended, into its lane |
| SimdDecode.PrefixSumIs | streamvbytedelta.c:357-368 | the shift-and-add prefix sum is the running sum modulo 2^32 |
| SimdDecode.Sums16Run | streamvbytedelta.c:376-391 | the 16-bit shortcut for eight one-byte deltas gives the same running sums, without overflow between lanes |
| SimdDecode.QuadDecoded | streamvbytedelta.c:339-368 | one key byte decodes to the next four integers of the stream |
| SimdDecode.OctDecoded | streamvbytedelta.c:376-391 | two zero key bytes decode to the next eight integers |
| SimdDecode.DecodeKeyBlock | streamvbytedelta.c:440-549 | eight keys shifted out of a 64-bit word decode to the next 32 integers |
| SimdDecode.DecodeBlocks | streamvbytedelta.c:440-549 | the pipelined block loop, loading the next key word ahead, leaves the same rest to decode as the scalar meaning |
| SimdDecode.DecodeVector | streamvbytedelta.c:440-549 | the vector decoder equals the scalar meaning for every key and data string, count and starting value; no load needs more than 12 bytes behind the data |
| SimdDecode.DeltaDecode | streamvbytedelta.c:551-557 | splits keys from data and returns the bytes consumed |
| SimdDecode.EncodeThenDecode | streamvbytedelta.c:329-337 | encoding and decoding every array returns it, and both calls report the same size |
| Chunks.Telescope | streamvbytedelta.c:304-327 | the deltas of an ascending list add up to its last value |
| Chunks.SizeOfAscending | streamvbytedelta.c:304-337 | n ascending values from zero take at most ceil(n/4) + 3n + min(n, 255) bytes |
| Chunks.WorstSize | streamvbytedelta.c:304-337 | for every n below 340 an ascending list meets that bound exactly |
| Chunks.BufferEnoughIff | chunk.c:99-112 | a buffer of 4n bytes is enough for every ascending list of n values if and only if n is 0 or at least 340 |
| Chunks.ChunkList.Push | chunk.c:45-56 | appends unless the chunk is full, doubling the capacity as needed, and the return code says which |
| Chunks.ChunkList.Compress | chunk.c:99-112 | any chunk whose encoding takes at most four bytes an entry is encoded into its buffer, entries kept |
| Chunks.ChunkList.CompressFits | chunk.c:99-112 | ascending chunks of 340 entries or more meet that condition, and from 356 on with room for the decoder's wide loads |
| Chunks.ChunkList.ListPush | chunk.c:77-93 | pushing in ascending order never fails and the list holds exactly the old entries and the new one, across compressed chunks |
| Chunks.ChunkList.Decompress | chunk.c:114-123 | restores exactly the entries that were compressed and leaves the chunk's other fields as they were, with all vector loads inside the buffer |
| Chunks.ChunkList.DecompressAt | chunk.c:114-123 | every compressed chunk of a list can be decompressed that way |
| Utf8.DecoderExact | gumbo-parser/src/utf8.c:60-96 | the automaton accepts for the first time after a byte sequence if and only if the sequence is one UTF8-char of section 4 of RFC 3629 |
| Utf8.RejectsExactly | gumbo-parser/src/utf8.c:60-96 | it rejects exactly when the bytes neither are a character nor can become one |
| Utf8.DecoderValue | gumbo-parser/src/utf8.c:88-96 | on acceptance the register holds the character's code point |
| Utf8.MeansStep | gumbo-parser/src/utf8.c:63-86 | each state of the table stands for exactly the continuations that complete a character, and each transition keeps that |
| Utf8.EncodeDecodes | gumbo-parser/src/string_buffer.c:61-85 | every Unicode scalar value is encoded as one character, which decodes to it at its last byte and not earlier |
| Utf8.EncodeExactIff | gumbo-parser/src/string_buffer.c:61-85 | what is written for an int is a character that decodes to it if and only if the int is a scalar value |
| Utf8.CharIsEncoded | gumbo-parser/src/string_buffer.c:61-85 | every well-formed character is the encoding of its code point, which is a scalar value: no overlong form, no surrogate |
| Utf8Stream.StreamOfEncoded | gumbo-parser/src/utf8.c:127-181 | reading an encoded text shows the text with CR LF and CR turned into LF and forbidden code points replaced, and nothing else |
| Utf8Stream.FrontChar | gumbo-parser/src/utf8.c:137-163 | a well-formed character at the front of any input is what is read |
| Utf8Stream.OneShown | gumbo-parser/src/utf8.c:137-164 | a scalar value is shown as it is if it is outside the forbidden ranges, and otherwise as U+FFFD with an error |
| Utf8Stream.PlainOrForbidden | gumbo-parser/src/utf8.c:196-202 | the code points replaced are exactly 1-8, B, E-1F, 7F-9F, FDD0-FDEF and the last two of every plane |
| Utf8Stream.TextShown | gumbo-parser/src/utf8.c:127-181 | a text without CR is shown character by character |
| Utf8Stream.PlainText | gumbo-parser/src/utf8.c:127-181 | a text of plain characters is shown exactly as it is |
| Utf8Stream.NormalizedSplits | gumbo-parser/src/utf8.c:146-158 | preprocessing a text is preprocessing its parts, unless the cut separates a CR from its LF |
| Utf8Stream.LineEnds | gumbo-parser/src/utf8.c:146-158 | CR LF, CR and LF are all shown as one LF |
| Utf8Stream.NoCarriageReturn | gumbo-parser/src/utf8.c:146-158 | no CR is ever shown, whatever the bytes |
| Utf8Stream.BrokenFront | gumbo-parser/src/utf8.c:165-181 | where no character stands, the longest part that could begin one is taken, but at least one byte, as one U+FFFD; at the end of the input that is the whole rest |
| Utf8Stream.ReadAgain | gumbo-parser/src/utf8.c:146-158 | after a skipped CR the cursor stands where a new reading finds the same character |
| Utf8Stream.Utf8Iterator.ReadChar | gumbo-parser/src/utf8.c:127-181 | for any bytes: consumes the longest start that can be a character, at least one byte, reports invalid and truncated input, and keeps offset and position together |
| Utf8Stream.Utf8Iterator.Next | gumbo-parser/src/utf8.c:215-221 | starts the next reading right behind the current character, so that no byte is lost or read twice; drops exactly the current code point from what is ahead, advances strictly until the end, and stays there |
| Utf8Stream.ReadAll | gumbo-parser/src/utf8.c:127-221 | for any bytes: reading to the end shows the whole stream, and the widths and skipped CRs of its readings partition the input |
| Utf8Stream.PartitionTaken | gumbo-parser/src/utf8.c:127-221 | the widths and skipped bytes of such pieces add up to the length of the input |
| Utf8Stream.Utf8Iterator.Mark | gumbo-parser/src/utf8.c:253-256 | remembers the current position |
| Utf8Stream.Utf8Iterator.Reset | gumbo-parser/src/utf8.c:259-263 | returns to the mark with the same character under the cursor and the same code points ahead as there; an error at the mark is recorded again |
| StringBuffers.StringBuffer.MaybeResize | gumbo-parser/src/string_buffer.c:33-47 | makes room by doubling, keeps the contents, and grows only when needed and to less than twice the need |
| StringBuffers.StringBuffer.AppendCodepoint | gumbo-parser/src/string_buffer.c:61-85 | for every int: appends exactly its encoding, byte by byte, each cut to eight bits |
| Dsort.Merge | dsort.cc:30-77 | for any sources sorted by id: the loop ends, every posting list is nondecreasing, and holds each id exactly as often as documents with that id hold the term |
| Dsort.Round | dsort.cc:30-77 | one round posts the smallest head, keeps the active part of the array sorted by head id, and leaves one document fewer |
| Dsort.FindPlace | dsort.cc:52-67 | the binary search counts exactly the sources with a smaller id than the one being moved |
| Dsort.MoveDown | dsort.cc:69-74 | shifts the slots down and puts the first one in place; the array is otherwise unchanged |
| Dsort.Reinsert | dsort.cc:40-75 | end of file moves the source out of the active part, anything else puts it where its new head belongs |
| Dsort.Post | dsort.cc:35-37 | each term's list gains the id as often as the document holds the term |

## Left out

- Choosing compaction inputs: `BeginCompaction` takes as hypotheses that the inputs hold every older entry of their keys at both levels and that base-level answers are sound. `version_set.cc` picks inputs by file ranges, which does not by itself rule out a user key straddling two files of a level; `TrivialMove` likewise takes as its guard what `MoveExactIff` shows to be needed.
- Store.BuildBatchGroup: sizes are given numbers, not the byte counts of the batches.
- Compaction.DoCompactionWork: table I/O errors and the interleaved memtable flush inside the loop are not modelled here; the flush is an event of its own in `Store`. What unparsable keys do to reads is not stated: `CompactVersion` is about intact input.
- Failed writes: log append, sync and manifest errors, background errors and the status a failed group hands to its members.
- Recovery options, `Repair`, paranoid checks, lost and orphaned table files, file numbering beyond logs.
- User keys are numbers standing for their rank in `Entries`, `Compaction`, `Store` and `DbIter`; `MemTable`, `SkipList` and `BlockReader` keep a general comparator.
- Merging and two-level iterators, the bloom filter, table cache, block cache and compression: a version is the list of what its tables hold.
- Recovery.RecoverLogFile: errors are ignored, as they are without paranoid checks, and one memtable takes everything; `Store` models the split into several tables. The numbers of the batches must ascend, as one writer at a time leaves them; the skip list demands of its caller that no equal key is inserted.
- LogFile.Reader.ReadRecord: initial offset 0 only, and of a report only its size. The checksum is any deterministic function; collisions are not discussed.
- SkipList.List.Insert: nodes live in one map per level instead of heap cells, stores are sequentially consistent, and the random height is a parameter.
- MemTable.MemTable.Add: arena allocation is not modelled; the height drawn is a parameter.
- WriteBatch.Batch.Put: the count is kept below 2^31, where the source's `int` would overflow.
- Snapshots.SnapshotList.Delete: freeing the node and the list-ownership assertion are not modelled.
- DbIter.DBIter.Next: entries with corrupt keys are not modelled.
- Blocks.DecodeEntry: the sum of the two lengths is not reduced to 32 bits, so lengths of corrupt entries that overflow together are treated as too long.
- BlockReader.Open: the error and empty iterators are both "no array to open".
- BufRing.RingSafeIff: sequentially consistent steps; no claim about fairness of the spin waits or `br_drops`. That a NULL dequeue means an empty ring is claimed only while fewer than `size` items are published between its two loads. The single-consumer variants and peek are not modelled.
- SimdDecode.LaneIsWord: the length and shuffle tables are modelled by the rule that generates their rows.
- The codec without deltas in `streamvbyte.c` is the same code without the prefix sum and would only add easier members.
- Chunks.ChunkList.ListPush: chunks are values in a sequence, not cells of an intrusive list; reading chunks back from files is not modelled.
- Utf8Stream.Utf8Iterator.Next: line and column, tab stops, and the limit on recorded errors are not modelled.
- Dsort.Merge: starts from sources that have each read a first document and are sorted by it; the initial reads, the library sort and file formats are not modelled. Ids are unbounded.
- The HTML tokenizer and tree builder, crawling, `merge.cc`, `iw.c`, the index writer and command-line tools.
