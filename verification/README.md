# Verified model of ch-backup

A Dafny model of ch-backup, the backup tool for ClickHouse, with proofs of what its design promises. It covers three
parts of the program.

**The deduplicated backup store.** Backups share data parts: a part is stored by one backup and linked by later ones.
`BackupStore` has the stored metadata, the objects, how a part resolves to an object, and the invariant that makes it
right to trust linked parts unseen. `StoreMachine` has `backup`, `delete` and `purge` as single storage operations with
a stop or a kill possible between any two; `StoreSafety` proves what every step and every run keeps and what a finished
deletion has done; `StoreComplete` does so for own parts. `Commands` has the commands themselves, statement by statement
with raising and killed storage operations, as methods that drive that machine; `Selection` has which backups and parts
they take. `DedupScan` and `DedupLinks` have the collection of deduplication rows and the links made from them,
`PartNames` the comparison of part names; `MetadataSizes` the size counters; `KeySpace` the object keys behind the
abstract map. `PurgeRace` has `purge` beside backups that appear while it waits for the lock; `StoreLimits` and
`PurgeLimits` show where the guarantees end.

**The streaming pipeline.** `BytesFifo`, `Chunking`, `Transfer` (encryption), `RateLimit`, `MultipartUpload` and
`RangedDownload` are the stages; `TarHeader`, `TarWriter`, `TarParser`, `TarVerdict`, `TarStage` and `TarRoundTrip` the archive
format, following the GNU tar manual, "Basic Tar Format", and the "ustar Interchange Format" section of the POSIX.1-2017
`pax` utility; `Sizes` the size predictions; `Archive` puts the stages of both directions together.

**Tables.** `TableFreeze` is the optimistic concurrency protocol around FREEZE, `PartUpload` the backup of the data of a
table with its pool of uploads and its checkpoints, `RestoreQueue` the retry queue of restore, and `WorkloadOrder` the
sort of workload entities.

Objects whose methods change their fields are classes (`BytesFIFO`, `ChunkingStage`, `TarStreamProcessor`,
`UploadPipeline`, `Download`, `RateLimiter`, `BackupMetadata`, `TableDataBackup`, `Sorter`, `ClickhouseBackup`), and loops
that change variables are methods with loops, each proved against a function or predicate; the results about those are
lemmas. Protocols with concurrent or crashing parties are state machines over their steps.

Assumptions. Commands exclude each other while they hold the lock (the ZooKeeper one: the local file lock is taken
shared, ch_backup/logic/lock_manager.py:110), a backup of schemas only, which may be told to go without it
(ch_backup/ch_backup.py:746-754), does not run beside another command. The listing `backup` starts from may be out of
date when it takes the lock, but no backup of the same name has appeared since, and none has lost its light metadata
alone. The clock moves on between backups, so start times are distinct and their order is the order of creation. A
deletion of an object succeeds or raises. retain_count is an integer. Every touch of a table's metadata file gives it
a change time never seen before, and UUIDs identify data directories (Atomic databases). Downloads: every answer
carries ETag and Content-Range (RFC 9110, sections 8.8.3 and 14.4), and an ETag identifies content. The cipher adds a
fixed number of bytes to each chunk and can be undone. Times are real numbers and quotients are exact. Storage faults,
interleavings, clocks, the choice the SQL join makes among rows of equal checksum, and UTF-8 validity are parameters.
Names of frozen parts of one table are distinct, as they are in ClickHouse.

What the model found about the code, with the member that proves it:

- Full metadata is saved before the light file and deleted after it. A kill during a whole-backup deletion can leave full
  metadata that no command lists and whose links may dangle (`StoreLimits.OrphanedLinkDangles`; when exactly, says
  `StoreLimits.UnlistedLinkSurvivesIff`). A `backup` that has made its listing before still takes it for a donor, without
  looking (`StoreLimits.StaleWindowMisleads`); donors that are listed are safe (`StoreSafety.LinkToIsSound`).
- One bulk request deletes up to bulk_delete_chunk_size keys, both metadata files among them, in no promised order, and
  its per-key errors are not read. Broken off or failing in part it can leave light metadata without the full file
  (`StoreLimits.LightWithoutFull`); nothing but the deletion of a full file before its light file can
  (`StoreLimits.ReadableThroughoutIff`), so deletion in listing order cannot (`StoreLimits.OrderlyLosesNone`). From then on
  no `delete` or `purge` completes; without storage faults that is the only obstacle (`Commands.ClickhouseBackup.Delete`,
  `Commands.ClickhouseBackup.Purge`).
- `purge` reads the names of backups before it takes the lock, and deletes whole what is listed later and not among them
  (ch_backup/ch_backup.py:469-477): a backup made in between is lost, whatever the policy says
  (`Commands.ClickhouseBackup.Purge`). The other backups stay sound unless one of them links to it
  (`PurgeRace.KnownSoundIff`), which takes a name used again in between (`PurgeRace.StraysAreNewer`,
  `PurgeLimits.RebornLinkDangles`); if the deletion is killed half way, its own links may dangle
  (`PurgeLimits.StrayLinkDangles`; when exactly, says `PurgeLimits.StrayLinkSurvivesIff`).
- `purge` with a retain time but no retain count raises TypeError at the first backup
  (`Commands.ClickhouseBackup.Purge`).
- An encryption buffer of exactly one chunk uploads but never downloads (`Transfer.UploadThenDownload`).
- The rate limiter starves when limit * retry_interval is below 1 (`RateLimit.EndsIff`, `RateLimit.Starves`).
- Tar prediction is short by a block for each long ASCII name whose length is a multiple of 512
  (`Sizes.TarPredictionExactIff`); the size check of such a stored part fails and the part is not reused
  (`Sizes.SizeCheckPassesIff`).
- Under a root that begins with a slash, multipart uploads, existence checks and size queries mean another key than plain
  uploads, downloads and deletions, so no backup would be found again (`KeySpace.KeysAgreeIff`,
  `KeySpace.DirectoriesAgreeIff`).
- The comparison of part names accepts more than a changed mutation suffix exactly when one of the three compared numbers
  is not written as it is printed (`PartNames.ExactIffWritten`, `PartNames.LeadingZeroMisleads`).

## Model

| member | source | states |
|---|---|---|
| StoreSafety.LinkedPartsResolve | ch_backup/backup/deduplication.py:200-207 | After any run of backup, delete and purge steps from an empty storage, with a stop or kill between any two: every linked part of every listed backup, whatever its state, leads to an object that is there with the checksum of the part, and the backup that owns it is listed, older, and lists it as its own. This is what `verified = True` relies on. |
| StoreSafety.RunKeeps | ch_backup/ch_backup.py:181-233 | The whole-run invariant (links flat, from newer to older, sound at every moment of a backup or deletion) is kept by runs of any length. |
| StoreSafety.StepKeeps | ch_backup/ch_backup.py:550-608 | Every single step of a backup or a deletion, including stopping there, keeps the invariant. |
| StoreSafety.BackupStepKeeps | ch_backup/ch_backup.py:185-233 | No step of `backup`, in whatever order uploads, checkpoints and links come, breaks the links of any backup; both metadata files may be saved at any time. |
| StoreSafety.LinkToIsSound | ch_backup/backup/deduplication.py:293-324 | A link made from any donor in the window that is listed, itself linked or not and in any state, however old the window, points straight to the uploading backup under the uploaded name, resolves to where the donor resolved, and the data has the checksum. |
| StoreSafety.LinkSurvives | ch_backup/ch_backup.py:561-597 | At every moment of a deletion a link of a still listed backup is sound, because newer backups go first and parts retained backups link to are never dropped. |
| StoreSafety.NewerGoesFirst | ch_backup/backup/layout.py:467 | Of two backups in one deletion, what the newer one links to is untouched as long as the newer one still has the link: the newest-first order of the listing is what makes batch deletion safe. |
| StoreSafety.RetainedAlwaysIntact | ch_backup/ch_backup.py:561-608 | At every moment of a deletion, however far it has come and wherever it is stopped, each backup to be retained is listed with unchanged metadata, and each of its parts, own or linked, resolves to the same object as before. |
| StoreSafety.DeletionExact | ch_backup/ch_backup.py:564-608 | Besides that, once the list is worked through an own part of a deleted backup has survived, in metadata and in storage, exactly if a retained backup links to it. |
| StoreComplete.UndeletedPartsResolve | ch_backup/ch_backup.py:561-597 | After any run with stops and kills anywhere, every part, own or linked, of every listed backup that is not DELETING or PARTIALLY_DELETED leads to data with its checksum, provided no purge takes data of a stray that is still listed. |
| StoreComplete.OwnStoredThroughoutIff | ch_backup/ch_backup.py:474-477 | That proviso is exact for own parts: they are stored at every moment of a run exactly if no step takes data of a stray that is still listed. |
| StoreSafety.DeleteInvSound | ch_backup/ch_backup.py:550-597 | The storage is sound at every moment of a deletion, so the next command may start after a crash anywhere. |
| StoreLimits.OrphanedLinkDangles | ch_backup/ch_backup.py:565-570 | The property does not extend to full metadata whose light file is gone: a concrete run, its files deleted in listing order, with one kill in a whole-backup deletion leaves stored metadata with a dangling link. |
| StoreLimits.StaleWindowMisleads | ch_backup/backup/deduplication.py:200-207 | After that run a window from an older listing admits the orphaned metadata as a donor, its linked part unchecked, and the link made leads nowhere. |
| StoreLimits.UnlistedLinkSurvivesIff | ch_backup/ch_backup.py:561-597 | When the link of an unlisted backup outlives a finished deletion, told from the storage before it: exactly if its owner is not deleted, or a retained listed backup links to the same part. |
| StoreLimits.ObjectSurvivesIff | ch_backup/ch_backup.py:561-597 | The same for any object: a finished deletion leaves it exactly if its backup is not deleted or a retained listed backup links to it. |
| StoreLimits.ReadableThroughoutIff | ch_backup/backup/layout.py:840-851 | At every moment of a run with stops and kills anywhere each listed backup has its full metadata, exactly if no step deletes the full file of a backup while its light file is there. |
| StoreLimits.OrderlyLosesNone | ch_backup/backup/layout.py:840-851 | Deleting the files of a backup in the order of the listing, light before full, meets that condition. |
| StoreLimits.LightWithoutFull | ch_backup/storage/engine/s3/s3_engine.py:101-112 | The keys of one bulk request go in no promised order and errors for single keys are not read: a concrete run in which the full file goes before the light one, and a stop then, leave light metadata alone; no run in listing order does. |
| Commands.ClickhouseBackup.Backup | ch_backup/ch_backup.py:115-235 | Whatever raises or is killed, other backups are untouched; a name taken in the listing it starts from changes nothing. A completed backup is listed as CREATED, its light and full metadata with the start time, host and kind it was made with, with exactly the intended parts, each leading to data with its checksum; a backup that has not completed is never listed as CREATED, and if the work raises and the last save goes well both files say FAILED. If no storage operation fails it completes exactly if that listing does not have the name. |
| Commands.ClickhouseBackup.Delete | ch_backup/ch_backup.py:409-446 | Not found exactly if the name is not listed, and then nothing changes; takes along, with purge_partial, exactly the backups that are not CREATED and not the newest. Whether it completes, fails or is killed, every other backup that could be read is as it was, with all that its parts resolve to. When completed it has worked through its list. If no storage operation fails it completes exactly if the name is listed and every listed backup has its full metadata. |
| Commands.ClickhouseBackup.Purge | ch_backup/ch_backup.py:450-512 | Of the backups known before the lock takes exactly those with at least retain_count newer CREATED known ones and a start before the time limit, if there is one. Whether it completes, fails or is killed, every other known backup that could be read is as it was, with all that its parts resolve to; of the listed ones not chosen a completed purge leaves exactly the known ones, given that the deletion of the strays, which the program waits for only if something is chosen, goes through. Without a policy nothing changes; a time limit without a count raises TypeError at the first known backup. If no storage operation fails it completes exactly if there is a policy, no TypeError, and every known listed backup has its full metadata. |
| Commands.ClickhouseBackup.DeleteStrays | ch_backup/ch_backup.py:473-479 | The listed backups missing from the names read before the lock are deleted whole; without a count the loop stops at the first known backup, with the newer strays gone. |
| PurgeRace.StraysAreNewer | ch_backup/ch_backup.py:469-473 | Whatever runs between the reading of the names and the lock: unless a name is used again, what purge then finds besides the names is newer than all it had read. |
| PurgeRace.KnownSoundIff | ch_backup/ch_backup.py:474-477 | What purge leaves after deleting the strays unseen is sound exactly if no known backup links to a stray, which holds whenever strays are newer. |
| PurgeRace.MixedRunKeeps | ch_backup/ch_backup.py:474-508 | The strays go in the pool beside the chosen deletions: every run that mixes deletion steps on the real storage with deletions of files of strays keeps the invariant for everything but the strays. |
| PurgeRace.ChosenCommutes | ch_backup/ch_backup.py:550-597 | A deletion step on a backup that is no stray is possible, and does the same to the known backups, whether or not the files of strays are there. |
| PurgeRace.KnownLinksResolve | ch_backup/ch_backup.py:474-508 | At every moment of such a run, wherever it stops, the links of all listed backups but the strays are sound. |
| PurgeRace.KnownKeptIntact | ch_backup/ch_backup.py:474-508 | At every moment of such a run each known backup that is not chosen is as it was, with all that its parts resolve to. |
| PurgeLimits.StrayLinkSurvivesIff | ch_backup/ch_backup.py:501-508 | A stray whose metadata outlives a killed or failed deletion has a link that still leads to data exactly if its owner was not deleted or a retained known backup links to the same part: the links of strays are not counted. |
| PurgeLimits.StrayLinkDangles | ch_backup/ch_backup.py:474-508 | Such a run, killed before the pool gets to the files of the stray: the stray stays listed as CREATED and its link dangles. |
| PurgeLimits.RebornLinkDangles | ch_backup/ch_backup.py:469-477 | If a name is used again meanwhile, the stray may be older than a known backup that links to it: a run up to the reading of the names, one from there to the lock, and the dangling link after it. |
| Commands.ClickhouseBackup.DeleteOne | ch_backup/ch_backup.py:550-597 | One backup, statement by statement with the `finally` part: it advances only if its metadata could be read, and then the backup is gone, or its stored metadata is cut to exactly the kept parts. |
| Commands.ClickhouseBackup.DeletePartially | ch_backup/ch_backup.py:572-597 | Whatever raises, the stored metadata is either still the one marked DELETING or has lost some parts that need not stay, the own ones of which have no data any more; when all goes well it has lost exactly all of those. |
| Commands.ClickhouseBackup.DeleteDataParts | ch_backup/ch_backup.py:573-578 | The tables seen decide which parts are removed: all but the kept ones once every table has been seen, and exactly the own ones of them are scheduled for deletion. |
| Commands.ClickhouseBackup.DeleteWhole | ch_backup/ch_backup.py:565-570 | A backup nobody links to: all objects under its prefix, in any order, then nothing is left of it. |
| Commands.CompletedIsExact | ch_backup/ch_backup.py:564-608 | What a completed `delete` or `purge` has kept and removed: every retained backup unchanged with every part resolving as before; a deleted one wiped out, or cut down in metadata and storage to the parts that retained backups link to, and listed as PARTIALLY_DELETED. |
| Selection.CollectRefs | ch_backup/backup/deduplication.py:354-388 | The part-by-part loop computes, for each backup to be deleted, exactly the stored names that some retained backup links to. |
| Selection.DeleteSelects | ch_backup/ch_backup.py:421-434 | The index-driven selection loop of `delete` takes exactly the named backup and, with purge_partial, the unfinished ones that are not the newest. |
| Selection.PurgeSelects | ch_backup/ch_backup.py:471-498 | Counting retain_count down over the listing selects exactly by the number of newer CREATED backups. |
| Selection.ListBackups | ch_backup/backup/layout.py:447-467 | All backups with light metadata, newest first. |
| DedupScan.CollectWindow | ch_backup/backup/deduplication.py:113-128 | The loop that stops at the first old backup yields exactly the backups young enough that are not schema-only, newest first; nothing when deduplication is off. |
| DedupScan.PopulateDedupInfo | ch_backup/backup/deduplication.py:148-237 | The scan with flags, early end and batches inserts exactly the rows of the declarative definition: one per part that can serve from some backup in the window, from the newest such backup, newer backups first; batches join to that list, none is empty, none exceeds the batch size unless it is a single row, and at most one for each backup is not full. |
| DedupScan.RowsExplained | ch_backup/backup/deduplication.py:156-227 | Each row is for a part of a backup in the window, of a database to be backed up; its table is replicated or the backup is from the same host, no newer CREATED backup shadows it, and a linked part has its owner in the window. The row carries the checksum, size, owner and stored name of the part, and is verified exactly if the part is linked. |
| DedupScan.ServingPartsHaveRows | ch_backup/backup/deduplication.py:156-227 | And each part that can serve so has exactly one row. |
| DedupScan.EarlyEnd | ch_backup/backup/deduplication.py:236-237 | Ending the scan once no database is left to handle misses no row. |
| DedupScan.OpenDatabases | ch_backup/backup/deduplication.py:164-181 | The flags of each database, copied before the update, say exactly whether a newer CREATED backup shadows its replicated and its non-replicated tables. |
| DedupScan.AllShadowed | ch_backup/backup/deduplication.py:175-181 | Once a database is handled for both kinds of tables, no later backup has an eligible part in it. |
| DedupScan.FirstIndexIsFirst | ch_backup/backup/deduplication.py:195-203 | The backup a row comes from is the first in the listing from which the part can serve. |
| DedupLinks.DeduplicateParts | ch_backup/backup/deduplication.py:268-351 | Raises exactly if a differing name does not parse. Otherwise a match is linked exactly if the names agree and it is verified, or its object is in storage with the size of the row and storage answers; the link names the backup of the row and resolves to where that data was uploaded, with its checksum and size. |
| DedupLinks.NamesAgreeIff | ch_backup/backup/deduplication.py:286-293 | For names written as they are printed the agreement is that of everything before the mutation. |
| DedupLinks.AcceptedLinkIsSound | ch_backup/backup/deduplication.py:200-224 | From scan to link: whatever row with an equal checksum the join picks, an accepted one comes from a backup in the window, its link is the one of the state machine, and it is sound without a look at storage if the row was a linked part. |
| DedupLinks.ChainResolves | ch_backup/backup/deduplication.py:305-324 | After any number of backups and mutation renames a part leads straight to where the first backup of the chain stored it, with the same checksum and under a name of the same part. |
| DedupLinks.HopResolves | ch_backup/backup/metadata/part_metadata.py:138-143 | One link keeps the resolved key, checksum and size, and the stored name stays a mutation rename of the part name. |
| PartNames.RenamedIff | ch_backup/backup/deduplication.py:240-265 | Two names whose numbers are written as they are printed count as the same part exactly if they agree up to the mutation suffix. |
| PartNames.ExactIffWritten | ch_backup/backup/metadata/table_metadata.py:24-50 | The comparison agrees with its description, against all names so written, exactly for names so written: any other counts as the same part as one that differs before the mutation. |
| PartNames.PythonExactIffWritten | ch_backup/backup/metadata/table_metadata.py:41-44 | The same for the integers as Python reads and prints them. |
| PartNames.LeadingZeroMisleads | ch_backup/backup/deduplication.py:260-265 | A leading zero is enough, in any name: the names count as the same part and differ before the mutation. |
| PartNames.AllParts | ch_backup/backup/deduplication.py:260-265 | For example all_1_1_0 and all_01_1_0_2. |
| PartNames.TextRoundTrip | ch_backup/backup/metadata/table_metadata.py:41-44 | What Python prints of an integer its int() reads back, for int() as the code calls it: white space around, a sign, leading zeros, single underscores. |
| MetadataSizes.BackupMetadata.AddPart | ch_backup/backup/metadata/backup_metadata.py:473-481 | Fails exactly for an unknown table or a part already listed, changing nothing; the size counters stay the totals of all parts and of own parts. |
| MetadataSizes.BackupMetadata.AddTable | ch_backup/backup/metadata/backup_metadata.py:396-410 | Brings exactly the parts of the new table, or fails and changes nothing; the counters stay the totals. |
| MetadataSizes.BackupMetadata.RemoveParts | ch_backup/backup/metadata/backup_metadata.py:483-494 | Removes exactly the given parts, or stops at a missing or repeated one; even then the counters are the totals of what is left. |
| MetadataSizes.TotalWithout | ch_backup/backup/metadata/backup_metadata.py:488-494 | Taking any part out lowers the total by its weight, in whatever order the parts are counted. |
| BytesFifo.BytesFIFO.Read | ch_backup/storage/async_pipeline/base_pipeline/bytes_fifo.py:25-53 | Returns the first bytes of the queue and leaves the rest, wherever the pointers wrap. |
| BytesFifo.BytesFIFO.Write | ch_backup/storage/async_pipeline/base_pipeline/bytes_fifo.py:55-80 | Appends as many bytes as are free and says how many, wherever the pointers wrap. |
| BytesFifo.BytesFIFO.Resize | ch_backup/storage/async_pipeline/base_pipeline/bytes_fifo.py:108-136 | Refuses a size below one or below the filled bytes; otherwise the contents stay, and the queue stays intact exactly if the data was re-written or the new size reaches the write pointer. |
| BytesFifo.ReadTakesPrefix | ch_backup/storage/async_pipeline/base_pipeline/bytes_fifo.py:35-53 | The one or two raw reads of the circular buffer give a prefix of the queue and the moved pointer gives the rest. |
| BytesFifo.WriteAppends | ch_backup/storage/async_pipeline/base_pipeline/bytes_fifo.py:63-80 | The one or two raw writes append to the queue. |
| BytesFifo.ShrinkKeepsReadsIff | ch_backup/storage/async_pipeline/base_pipeline/bytes_fifo.py:128-136 | Shrinking a queue that lies in one run keeps what can be read, for all contents, exactly if the new size still reaches the write pointer. |
| Chunking.ChunkingStage.Call | ch_backup/storage/async_pipeline/stages/filesystem/chunking_stage.py:28-35 | However the input is cut, the stage emits the full chunks of everything seen so far and holds the rest; it ends because the chunk is positive and fits the buffer. |
| Chunking.RunChunking | ch_backup/storage/async_pipeline/stages/filesystem/chunking_stage.py:28-42 | The output depends on the byte stream alone, not on how it was cut nor on the buffer. |
| Chunking.RechunkPartitions | ch_backup/storage/async_pipeline/stages/filesystem/chunking_stage.py:28-42 | The chunks join to the stream, all but the last are full, the last is not empty, and their number is the ceiling of the quotient. |
| Chunking.RechunkUnique | ch_backup/storage/async_pipeline/stages/filesystem/chunking_stage.py:28-42 | There is only one such list, so the full-chunks-then-rest property determines the stage. |
| Transfer.TransferRoundTrip | ch_backup/storage/async_pipeline/pipeline_builder.py:175-211 | Chunk, encrypt, join, cut anyhow, chunk wider by the overhead, decrypt, join: the original bytes come back, for any cipher that adds a fixed overhead and can be undone. |
| Transfer.CipherChunksRecovered | ch_backup/storage/async_pipeline/pipeline_builder.py:193-211 | Re-chunking at chunk plus overhead finds the encrypted chunks again, since only the last can be short. |
| Transfer.UploadThenDownload | ch_backup/storage/async_pipeline/pipeline_builder.py:175-211 | Uploading works exactly if the chunk fits the buffer, downloading exactly if the chunk plus overhead does: a buffer of exactly one chunk stores what it cannot read back. |
| TarHeader.HeaderRoundTrip | ch_backup/storage/async_pipeline/stages/filesystem/read_files_tarball_stage.py:16-34 | A header block written in GNU format reads back as the cut name, the size and the type, for octal and base-256 sizes. |
| TarHeader.OctalRoundTrip | ch_backup/storage/async_pipeline/stages/filesystem/read_files_tarball_stage.py:27-34 | Octal number fields read back. |
| TarHeader.NumberFieldRoundTrip | ch_backup/storage/async_pipeline/stages/filesystem/read_files_tarball_stage.py:27-34 | Number fields of either encoding read back. |
| TarHeader.HeaderNumbers | ch_backup/storage/async_pipeline/stages/filesystem/read_files_tarball_stage.py:16-34 | The numbers of a written header stand where the format puts them: mode, owner and group 0, size, time, and a checksum that is the sum of the block with blanks for itself. |
| TarHeader.HeaderText | ch_backup/storage/async_pipeline/stages/filesystem/read_files_tarball_stage.py:16-34 | The rest of it, byte by byte: the name cut to 100 bytes, the type flag, the GNU magic, NUL everywhere else. |
| TarHeader.OctalAsWritten | ch_backup/storage/async_pipeline/stages/filesystem/read_files_tarball_stage.py:27-34 | Octal numbers stand as digits, most significant first. |
| TarHeader.BigEndianAsWritten | ch_backup/storage/async_pipeline/stages/filesystem/read_files_tarball_stage.py:27-34 | Numbers too wide for that stand as big-endian bytes. |
| TarWriter.TarPiecesStream | ch_backup/storage/async_pipeline/stages/filesystem/read_files_tarball_stage.py:55-86 | The pieces the generators yield, for any read size, join to the tar stream of the members. |
| TarParser.StepResume | ch_backup/storage/async_pipeline/stages/filesystem/write_files_stage.py:101-145 | An action that stopped for want of bytes and is run again with more ends where it would have ended with all of them at once. |
| TarParser.FeedAllIsFeed | ch_backup/storage/async_pipeline/stages/filesystem/write_files_stage.py:51-67 | For every byte stream, well formed or not, the parser ends in the same state however the stream is cut. |
| TarVerdict.ParserEndsAsVerdict | ch_backup/storage/async_pipeline/stages/filesystem/write_files_stage.py:51-145 | For every byte stream and every cut of it the parser throws, waits for more, or comes out even exactly as the format says of the whole stream: it throws on a header the library refuses, a long name that does not decode, or a byte other than NUL where a block is filled up, and on nothing else. |
| TarStage.TarStreamProcessor.Call | ch_backup/storage/async_pipeline/stages/filesystem/write_files_stage.py:51-67 | The object with its fields and circular buffer refines the parser: refused exactly if the piece does not fit beside what is buffered, otherwise the state is the parser fed with the piece. |
| TarStage.TarStreamProcessor.ReadHeaderAction | ch_backup/storage/async_pipeline/stages/filesystem/write_files_stage.py:69-93 | The header action does one header step of the parser, including the long name put into the record and the two ways to throw. |
| TarStage.RunProcessor | ch_backup/storage/async_pipeline/stages/filesystem/write_files_stage.py:36-67 | A whole run is refused exactly for a buffer below one block or a piece that does not fit, and is otherwise the parser over all pieces. |
| TarStage.SmallPiecesFit | ch_backup/storage/async_pipeline/stages/filesystem/write_files_stage.py:51-67 | Pieces of at most capacity minus 511 bytes never overflow, since fewer than 512 bytes stay buffered after each call. |
| TarStage.NeverOverflowsIff | ch_backup/storage/async_pipeline/stages/filesystem/write_files_stage.py:51-56 | No stream cut into pieces up to a limit overflows exactly if the limit plus 511 is within the capacity. |
| TarRoundTrip.RestoresStream | ch_backup/storage/async_pipeline/stages/filesystem/write_files_stage.py:51-148 | The tar round trip with split independence: for every file list, long names and empty files included, and every cut, exactly those files arrive in order and the parser ends at a header; it throws only for a long name that is not UTF-8. Of the library only that it reads the headers it writes is used. |
| TarRoundTrip.MemoryHolds | ch_backup/storage/async_pipeline/stages/filesystem/write_files_stage.py:182-200 | The unpacking stage returns all files in order but the empty ones. |
| TarRoundTrip.DiskHolds | ch_backup/storage/async_pipeline/stages/filesystem/write_files_stage.py:151-174 | On disk a name holds the content of the last file that arrived under it, empty files included; every other file of the directory stays as it was. |
| Sizes.TarLength | ch_backup/calculators.py:77-94 | The tar stream is as long as predicted plus one block for each block a name was mispredicted by. |
| Sizes.CharCountOfText | ch_backup/calculators.py:87-94 | The length of a name that the prediction goes by is the number of its characters, for any text in UTF-8. |
| Sizes.TarPredictionExactIff | ch_backup/calculators.py:77-94 | For ASCII names the prediction is exact if and only if no long name has a length divisible by 512. |
| Sizes.EncryptedLength | ch_backup/calculators.py:97-103 | The predicted encrypted size is exact for any cipher of fixed overhead. |
| Sizes.SizeCheckPassesIff | ch_backup/backup/layout.py:919-930 | The size check of a stored part passes exactly if the tar prediction misses no block, for plain and for encrypted parts. |
| Sizes.ScaleChunk | ch_backup/storage/async_pipeline/pipeline_builder.py:233-239 | Chunk and buffer grow together, the chunk fits the buffer exactly if it did before, and the predicted size takes at most max_chunk_count chunks. |
| Sizes.MultiplierLeast | ch_backup/storage/async_pipeline/pipeline_builder.py:237 | The multiplier is the least that keeps the count. |
| Sizes.PlanTarUpload | ch_backup/storage/async_pipeline/pipelines.py:153-168 | The estimate a pipeline composes from file sizes, tar overhead and encryption leads to chunk and buffer sizes that keep the count for the estimate: the configured ones if they do, else those times the least number that does. |
| Sizes.PlainPartsWithinIff | ch_backup/storage/async_pipeline/pipelines.py:153-168 | The real number of parts stays within the limit exactly if the mispredicted blocks still fit. |
| Sizes.EncryptedPartsWithin | ch_backup/storage/async_pipeline/pipelines.py:163-168 | Without mispredicted names the encrypted object is exactly as long as estimated and its parts stay within the limit. |
| Sizes.CalcTarballSize | ch_backup/calculators.py:77-94 | The loop adds, for each name, one block, or the blocks of a long name. |
| Sizes.CalcAlignedSize | ch_backup/calculators.py:44-55 | The loop adds up the sizes rounded up to the alignment. |
| MultipartUpload.ScheduleSorts | ch_backup/storage/engine/s3/s3_multipart_uploader.py:81-96 | In whatever order concurrent workers send and record their parts, sorting by part number gives the stream order back. |
| MultipartUpload.UploadPipeline.Upload | ch_backup/storage/async_pipeline/stages/storage/multipart_storage_uploading_stage.py:48-115 | For any interleaving of the workers the object is the joined chunks: by one plain put if the only chunk is short, else as parts 1..n under one upload id, taken exactly if the first chunk is full; no upload is left open. |
| MultipartUpload.UploadStream | ch_backup/storage/async_pipeline/stages/storage/multipart_storage_uploading_stage.py:48-115 | A stream cut anyhow becomes the object; an empty one uploads nothing and leaves what was there. |
| MultipartUpload.AllPartsStaged | ch_backup/storage/engine/s3/s3_multipart_uploader.py:67-79 | When the last stage completes the upload every listed part is in storage under its number. |
| MultipartUpload.SortOrders | ch_backup/storage/engine/s3/s3_multipart_uploader.py:92 | Sorting orders the records and keeps each of them. |
| MultipartUpload.UploadPipeline.StartStage | ch_backup/storage/async_pipeline/stages/storage/multipart_storage_uploading_stage.py:48-57 | The upload id is taken for the first full chunk and reused. |
| RangedDownload.DownloadAll | ch_backup/storage/engine/s3/s3_engine.py:197-258 | Against concurrent overwrites and lost requests: what is delivered is a prefix of one version that existed during the download and a normal end is that whole version. After the first delivered byte every answered request that meets another version reaching beyond the bytes delivered raises. Pieces are as long as asked for but the last, and the first if the version in hand when it was asked for was shorter. It gives up only after 30 fruitless requests in a row, and completes if every request is answered by the version it started on. |
| RangedDownload.Download.DownloadPart | ch_backup/storage/engine/s3/s3_engine.py:211-258 | One part with retries: the next bytes of the version in hand, a switch of versions only while nothing has been delivered, an overwrite error, or 30 attempts none of which could bring a byte. |
| Archive.Store | ch_backup/storage/async_pipeline/pipelines.py:142-173 | Tar writer, chunking, cipher, rate limit, chunking and parallel upload in a row leave exactly the encrypted stream as the object. |
| Archive.Restore | ch_backup/storage/async_pipeline/pipelines.py:190-249 | Both download pipelines on that object return all files, for any read size, chunk sizes that fit, interleaving and cut, and they do complete if every request is answered. |
| RateLimit.WindowBound | ch_backup/storage/async_pipeline/base_pipeline/rate_limiter.py:20-59 | Over every window of requests, extracting or granting, at most limit * (1 + elapsed) tokens are handed out, and the bucket stays between 0 and the limit. |
| RateLimit.TokensConserved | ch_backup/storage/async_pipeline/base_pipeline/rate_limiter.py:20-59 | What is handed out plus what is left never exceeds what was there plus what time has brought. |
| RateLimit.GivesEnough | ch_backup/storage/async_pipeline/base_pipeline/rate_limiter.py:20-42 | What is wanted is given up to the limit, or all but less than one token of what was there and what time has brought; a second makes up for any burst. |
| RateLimit.RateLimiter.ExtractTokens | ch_backup/storage/async_pipeline/base_pipeline/rate_limiter.py:31-42 | As many tokens as are wanted, up to the limit and to what was there and the whole tokens the time since then has brought, and that many are taken; everything if the limit is off. |
| RateLimit.RateLimiter.GrantTokens | ch_backup/storage/async_pipeline/base_pipeline/rate_limiter.py:44-59 | All the tokens asked for, exactly if that many are there in the same sense, or none. |
| RateLimit.TurnPassesGiven | ch_backup/storage/async_pipeline/stages/storage/rate_limiter_stage.py:27-37 | A turn of the stage passes exactly that many bytes from the front. |
| RateLimit.EndsIff | ch_backup/storage/async_pipeline/stages/storage/rate_limiter_stage.py:27-37 | The stage ends for every value, bucket and clock exactly if the limit is off or limit * retry_interval is at least 1. |
| RateLimit.Starves | ch_backup/storage/async_pipeline/base_pipeline/rate_limiter.py:24-29 | Otherwise it can starve for ever: a sleep that earns less than a token earns nothing, because the fraction is dropped while the time of the last update moves on. |
| RateLimit.PassAll | ch_backup/storage/async_pipeline/stages/storage/rate_limiter_stage.py:27-37 | The stage over a whole stream loses and reorders nothing. |
| TableFreeze.IncludedIsSnapshot | ch_backup/logic/table.py:87-105 | Against any interleaving of ALTER, EXCHANGE, DROP and CREATE with collecting, listing, reading and freezing: each backed up table had its name, UUID and statement in the catalog at the end of collection, and every FREEZE for it found the data of that UUID. |
| TableFreeze.UndisturbedIsIncluded | ch_backup/logic/table.py:150-203 | In every run in which nobody touches the metadata file of a table from when its change time is collected, whatever else other clients do, the table is backed up once it is frozen and checked: under its path and UUID, with its statement, and FREEZE has found exactly its data. |
| TableFreeze.QuietRunIncludes | ch_backup/logic/table.py:150-203 | Left alone altogether, any table with a statement can be taken through to the end. |
| TableFreeze.CheckedIncludedIff | ch_backup/logic/table.py:460-489 | After the check a table is in the backup, as listed, read and frozen, exactly if its file is there with the path and the change time seen while change times were collected. |
| TableFreeze.FailedFreezeAbortsIff | ch_backup/logic/table.py:460-489 | A failed FREEZE ends the backup exactly if the table still exists and its file is as it was seen; otherwise the table is skipped. |
| TableFreeze.NoTableTwice | ch_backup/logic/table.py:150-203 | No table is backed up under two names and no statement goes with the data of another table. |
| TableFreeze.StepKeeps | ch_backup/logic/table.py:460-489 | As long as the metadata file of a table has its collected change time, all that is known about the table is what the snapshot says; every step keeps this. |
| PartUpload.TableDataBackup.BackupFrozenTableData | ch_backup/logic/table.py:491-587 | In whatever order uploads complete and wherever one fails, every saved version of the metadata lists own parts only if their data is stored; if no storage operation fails it ends well, and whenever it does exactly the frozen parts get listed, each as deduplication of the batch it went in found it, or with its own checksum and size, uploaded and entered once. |
| PartUpload.TableDataBackup.WaitAll | ch_backup/storage/async_pipeline/base_pipeline/exec_pool.py:84-116 | Each completed job is called back once, in any order; at the end the metadata has grown by exactly the parts of all jobs and the pool is empty. |
| PartUpload.TableDataBackup.UploadDataPart | ch_backup/storage/async_pipeline/base_pipeline/exec_pool.py:58-73 | A second job of the same id is refused; otherwise the part is in the pool, or uploaded and listed when there is no pool. |
| PartUpload.TableDataBackup.Observe | ch_backup/logic/upload_part_observer.py:23-32 | A part whose upload completed is listed; the metadata is saved as it is then exactly if the interval since the last save is over, and lists no part without its data. |
| PartUpload.TableDataBackup.DeduplicateInBatch | ch_backup/logic/table.py:501-532 | Every part of a batch ends up listed exactly as deduplication found it and in no upload, or listed or in the pool as the frozen part itself; nothing else changes. |
| RestoreQueue.RestoreTableObjects | ch_backup/logic/table.py:1221-1281 | The deque and the error list follow the turns of the queue; the failed tables are exactly those left in it, returned or raised. |
| RestoreQueue.AttemptsBounded | ch_backup/logic/table.py:1228-1254 | With any oracle for success n tables take at most n(n+3)/2 attempts, and each is restored once or left in the queue. |
| RestoreQueue.RestoresLeastFixedPoint | ch_backup/logic/table.py:1228-1254 | If a table succeeds once its dependencies are there, exactly the least set closed under that gets restored. |
| RestoreQueue.OrderDoesNotMatter | ch_backup/logic/table.py:1228-1254 | The same tables are restored whatever the order of the input. |
| RestoreQueue.EndsInTime | ch_backup/logic/table.py:1240-1246 | The loop stops within its bound, and when it stops every table left in the queue has failed since the last success. |
| WorkloadOrder.TopologicallySort | ch_backup/logic/workload_entities.py:251-279 | Ends on every parent graph; with unique names it raises exactly if some parent is missing; otherwise the result has one entity per name. |
| WorkloadOrder.OrderedIffAcyclic | ch_backup/logic/workload_entities.py:261-279 | Every parent comes before its children exactly if no entity is on a cycle of parents. |
| WorkloadOrder.AllSorted | ch_backup/logic/workload_entities.py:257-279 | With unique names the result is a permutation of the input. |
| WorkloadOrder.Sorter.WalkToParents | ch_backup/logic/workload_entities.py:261-274 | The recursive walk visits the entity and, with unique names, all its ancestors; any entity it puts before its parent is on a cycle; it raises only if some parent is missing. |
| KeySpace.PartKeysInjective | ch_backup/backup/layout.py:1004-1018 | No two parts share an object key, whatever the names of databases and tables hold, for backup and part names of one path segment and names that are not empty. |
| KeySpace.QuoteRoundTrip | ch_backup/backup/layout.py:1055-1061 | Escaping can be undone (percent-encoding as in section 2.1 of RFC 3986). |
| KeySpace.QuoteByte | ch_backup/backup/layout.py:1055-1061 | Letters, digits, "_" and "~" stay; any other byte becomes "%" and its two hexadecimal digits in capitals. |
| KeySpace.QuotedBytes | ch_backup/backup/layout.py:1055-1061 | So neither "." nor "-" nor a slash is left. |
| KeySpace.PartKeyText | ch_backup/backup/layout.py:1004-1018 | A part is stored under root/backup/data/database/table/part/part.tar, database and table escaped. |
| KeySpace.KeepsSlashIff | ch_backup/storage/engine/s3/s3_engine.py:50-160 | Which operations keep a leading slash: the three multipart upload calls, path_exists and get_object_size, and no other. |
| KeySpace.EmptyNamesCollide | ch_backup/backup/layout.py:1013-1015 | An empty database or table name would make two parts collide. |
| KeySpace.ListsOneBackup | ch_backup/storage/engine/s3/s3_engine.py:114-120 | The prefix listing that delete_backup works from selects exactly the keys of that backup, even if one backup name begins with another. |
| KeySpace.KeysAgreeIff | ch_backup/storage/engine/s3/s3_engine.py:50-160 | Uploads, downloads and deletions strip leading slashes; the three multipart upload calls, path_exists and get_object_size do not. Two operations mean the same object exactly if both strip or neither does, or the configured root does not begin with a slash. |
| KeySpace.DirectoriesAgreeIff | ch_backup/storage/engine/s3/s3_engine.py:114-178 | The existence check of a directory and the listing of it ask for the same prefix exactly if the path does not begin with a slash (or is nothing but slashes). |
| KeySpace.LinkRoundTripIff | ch_backup/backup/metadata/part_metadata.py:12-30 | A link written as a path and loaded again is the same link exactly if the backup name has no slash. |

## Left out

- ClickHouse SQL, the HTTP client, ZooKeeper and the lock manager: foreign systems; mutual exclusion is an assumption.
- Compression, the ciphers themselves, boto3 and the pipeline library: only their contracts; the part-count bound is for uncompressed streams.
- `backup`: access entities, functions, named collections, the min_interval check and the clean-up of frozen data, which do not touch parts or metadata states.
- Late deletions: objects whose deletion was scheduled by a command that raised or was killed are gone when the command ends or never.
- Bulk deletion errors reported per key in an otherwise successful answer: in the commands deletions succeed or raise; what such an error can leave behind is shown by StoreLimits.LightWithoutFull.
- Commands.ClickhouseBackup.Purge: takes backups that appeared after the names were read to be gone before the policy is applied, and excludes the case that a known backup links to one of them; PurgeRace has their deletion beside the chosen ones, PurgeLimits that case.
- Commands.ClickhouseBackup.Backup: excludes a backup of the same name that has appeared after the listing was made, whose files it would overwrite, and orphaned metadata in the window (StoreLimits.StaleWindowMisleads).
- StoreSafety.LinkedPartsResolve: its runs have `purge` delete such backups first; one that outlives a killed `purge` beside the chosen deletions is listed and not covered (PurgeLimits.StrayLinkDangles).
- PartNames.ReadInt: ASCII only; other decimal digits and white space, and the limit of 4300 digits, are left out.
- Downloads of metadata that fail for reasons other than a missing file: they would raise before anything changes.
- The backoff between retries of a storage request, and retries around uploads and listings.
- TarHeader.FromBuf: leaves out prefix, device, sparse and PAX handling of the library, and its lenient integer syntax; negative base-256 sizes are refused. The round trip relies on it only for the blocks of TarHeader.Header.
- TarWriter.File: sizes, times and long names beyond what an 11-byte number field holds are excluded, since the library cannot write them.
- Tarball scan size prediction with a base directory inside the archive: it ignores the directory, so no equality holds there.
- DedupScan.PopulateDedupInfo: the order of rows from one backup is left open, where the source goes by dictionary order and sorted part names.
- DedupLinks.DeduplicateParts: an unsuitable match can hide a suitable one, since the query keeps one row per part; of each match given it is proved exactly when it is reused, not that every reusable part is matched.
- PartUpload.TableDataBackup.BackupFrozenTableData: parts on S3 disks, which enter metadata without an upload, and the optional validation afterwards.
- TableFreeze.IncludedIsSnapshot: the rows inside a table may change between the pieces of one FREEZE; the data of one table is not claimed to be from one instant.
- RestoreQueue.RestoreTableObjects: the check for read-only replicas after the loop, whose table iterator is already used up.
- WorkloadOrder.TopologicallySort: with repeated names only the first claims hold, one entity per name and no missing parents.
- Legacy layouts: unescaped part paths, parts not stored as tarballs, old disk metadata, part numbers chosen by the uploader.
- Schema rewriting and comparison, configuration, logging, the command line: no hard state.
