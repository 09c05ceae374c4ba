# A verified model of the torrent tracker's core

The repository collects torrent records from trackers into buckets, keeps the buckets in files behind
two caches and an index, backs them up with hard-linked snapshots, serves them page by page to
replicas, and runs its parsers from a crontab. This project models the parts of it that keep state or
run as protocols, and proves what they promise.

| files | what they model |
|---|---|
| `Float64`, `FileTime` | FILETIME stamps and the push of a sync cursor to the next float64, with the rounding of IEEE 754-2008 in integers |
| `SyncPaging`, `SyncCycle`, `SyncSaves` | the paged feed: the server's page loop, the client's cycle, and the cycle with saves made between pages |
| `Disk`, `DiskSafety`, `BucketFiles` | a file system with hard links, open files, unsynced bytes and power losses; the steps of bucket writes, index writes, restores, quarantines and snapshots on it; the same operations as methods |
| `Flush` | the flush of waiting buckets, step by step |
| `BucketStore`, `DeepCopy`, `BucketAliasing` | what a read returns whatever is cached; copies of buckets in the heap; that callers and store share nothing |
| `FastIndex` | the inverted index over the keys |
| `Bencode`, `TorrentMeta`, `BencodeReader`, `Magnet`, `TorrentFaults` | the bencode cursor parser, the info bytes of a torrent, the magnet made of them, and the files that make them fault |
| `CronField`, `Calendar`, `CronSchedule`, `CronMeaning` | cron fields, schedules, the search for the next run, and what a written schedule fires at |
| `JobLine`, `Crontab`, `CrontabLaws`, `CrontabWrite`, `CrontabLost` | the crontab file: the editor's parser and printer, the scheduler's parser, saving, and what is lost by it |
| `RunGuard`, `RunSteps`, `RunFlags`, `RunAgain`, `SchedulerObject` | the flags that keep a job from running twice, across reloads; how they clear, and when they fail |
| `SolverProtocol`, `FlareFetcher`, `ReplayGuard` | the callers of the challenge solver, and the two-strike guard on replays |
| `TaskMap`, `SweepCycle`, `SweepRuns`, `AnibelkaParser` | the task map of a parser and the sweep cycle over it |
| `Options`, `Numerals`, `Text`, `Blanks` | decimal numbers, string order, trimming and splitting |

Two forms recur. A state machine (`Disk`, `Flush`, `SolverProtocol`, `RunGuard`, `SyncSaves`,
`ReplayGuard`) has events, a step function and an invariant, and its theorems are about every run. A
class (`Reader`, `Parser`, `Scheduler`, `SyncServer`, `SyncClient`, `Fetcher`, `ReplayMaps`, and the
four below) has the source's methods with their loops and updates, each proved against the functions
the theorems are about. What fails, how the browser answers, when a run is cancelled, what the clock
says and in which order a map is walked are parameters of these methods, or chosen without restriction.
The source's one database object is split by concern: `BucketFiles.Files` has its files and their
steps, `BucketStore.Buckets` its waiting buckets and read cache, `BucketAliasing.BucketMaps` its heap,
`FastIndex.Indexes` its inverted index.

Where a promise is false of the code the exact condition is proved, with an input that fails:

| promise | exact condition | input |
|---|---|---|
| FILETIMEs come in the order of instants | `FileTime.ToFileTimeMonotone` | `FileTime.ZeroTimeOutOfOrder` |
| a sync cycle is complete | `SyncPaging.CycleCompleteIffBreaksSafe`, `SyncPaging.CompleteForEveryTakeIff` | `SyncPaging.CloseFileTimesLoseABucket` |
| a flush loses no version | `Flush.StepKeepsGoodIff`, `Flush.NothingLostIff` | `Flush.TwoFlushersLoseAVersion`, `Flush.EmptyingSaveIsUndone` |
| a save keeps the index as a rebuild makes it | `FastIndex.SaveAgreesIff`, `FastIndex.SaveAgainAgreesIff`, `FastIndex.RunAgreesIff` | `FastIndex.BlankBeforeYear` |
| a rebuild lists a key once | `FastIndex.RebuiltOnceIff` | `FastIndex.SeasonListedTwice` |
| a torrent that cannot be read is an error | `TorrentFaults.MetaFaultsIff`, `TorrentFaults.MagnetFaultsIff` | `Magnet.OverflowTorrentPanics` |
| what is saved from the editor is what runs | `CrontabWrite.SavedFileReadsBackIff` | `CrontabLost.DashFourIsLost`, `CrontabLost.LineFeedIsLost` |
| a running job is not started again | `RunAgain.ReloadSafeIff`, `RunAgain.NeverAgainIff` | `RunAgain.DroppedJobRunsTwice`, `RunAgain.TwoLinesRunTwice` |
| three complete runs finish a cycle | `SweepRuns.ThreeRunsFinishIff` | `SweepRuns.StrandedForever` |

Hypotheses of the main results: one writer per file at a time (`Disk`), directory changes reach the
disk in the order they were made (`Disk`: a power loss finds one of the name spaces there were since the
disk last settled), no two keys share a path (`BucketStore`), and saves between pages are stamped 25
ticks above every earlier FileTime (`SyncSaves`).

## Model
| member | source | states |
|---|---|---|
| `Float64.RoundIsNearestTiesToEven` | filedb/admin.go:51-53 | the model's conversion of an integer to float64 gives a representable number at least as near as any other, and on a tie the one with the even significand (section 4.3.1 of IEEE 754-2008) |
| `Float64.RoundMonotone` | filedb/admin.go:51-53 | rounding to float64 never swaps two integers |
| `Float64.NextUpIsLeastAbove` | filedb/admin.go:51-53 | the step up from a float64 lands on the least float64 above it (section 5.3.1 of IEEE 754-2008) |
| `Float64.NextDownIsGreatestBelow` | filedb/admin.go:51-53 | the step down from a float64 lands on the greatest float64 below it |
| `FileTime.TicksSince1601` | filedb/admin.go:25-32 | a FILETIME counts the ticks of 100 ns from 1601-01-01 on, 11644473600 seconds before 1970, whole ticks only |
| `FileTime.OldTicksNormalised` | filedb/admin.go:38-43 | ticks counted from the year 1 become the FILETIME of the same instant, and what is at most 5 * 10^17 is left alone |
| `FileTime.FileTimeRoundTrip` | background/synccron.go:63-72 | for every instant but the zero time the FILETIME converts back to the instant, cut to 100 ns |
| `FileTime.FileTimeRoundTripBack` | filedb/admin.go:25-32 | converting a FILETIME to an instant and back gives the FILETIME, for every integer but the one that stands for the zero time |
| `FileTime.ToFileTimeMonotone` | filedb/admin.go:25-32 | order of instants is kept exactly when neither is the zero time, or the other lies on the right side of the FILETIME epoch: the code maps the zero time to 0 |
| `FileTime.ZeroTimeOutOfOrder` | filedb/admin.go:25-32 | the zero time and an instant of 1589: the later instant has the smaller FILETIME |
| `FileTime.SyncIsNextFloat` | filedb/admin.go:51-53 | above 2^52 the sync FileTime is the least float64 above the float64 the FileTime rounds to |
| `FileTime.SyncAdvances` | filedb/admin.go:46-53 | the sync FileTime is above the FileTime, as an integer and also after both are rounded to float64, exactly when the FileTime is negative or at least 2^52 |
| `FileTime.SyncMonotone` | filedb/admin.go:46-53 | sync FileTimes never come in the other order than FileTimes, for all integers |
| `FileTime.SyncOffset` | filedb/admin.go:38-53 | for the FileTimes of our time (2^56 up to 2^57 - 25) the sync FileTime lies 8 to 24 ticks above, and neither is taken for old C# ticks by the normalisation |
| `SyncPaging.SyncServer.RebuildOrderedCache` | filedb/admin.go:70-87 | the cache becomes the index in (FileTime, Key) order, each key once |
| `SyncPaging.SyncServer.OrderedMasterEntries` | filedb/admin.go:58-67 | gives the cache, which is rebuilt only when it was empty |
| `SyncPaging.CollectPage` | server/admin.go:243-304 | the loop over the ordered index returns the first buckets that are due above the time and show anything, until more than take records are counted, and says nextread exactly when an entry above the time is left unread; a bucket on it carries exactly its records that are no null and whose tracker is not disabled, as they are, and at least one |
| `SyncPaging.SyncServer.HandleSyncFdbTorrents` | server/admin.go:205-311 | an empty page for a withdrawn parameter (fileTime, startTime, spider, or take without limit), with sync closed or at time zero; otherwise such a page of the cached index, with the records of trackers that are not disabled, and of size take, else limit, else 2000, whichever is given and positive |
| `SyncPaging.PageShows` | server/admin.go:258-304 | of a page, by the records of the buckets: a bucket on it is listed, above the time, and carries exactly its records of trackers that are not disabled, which are what is counted |
| `SyncPaging.CompleteCycleCarries` | server/admin.go:243-304 | a complete cycle carries a listed bucket exactly when it is above the time and has a record of a tracker that is not disabled |
| `SyncPaging.CycleCompleteIffBreaksSafe` | background/synccron.go:122-215 | over a fixed index the pages of a cycle together are exactly what is due, in order and each once, if and only if no page break falls between two FileTimes that the cursor cannot tell apart |
| `SyncPaging.CompleteForEveryTakeIff` | background/synccron.go:122-215 | a cycle over a fixed index is complete for every page size exactly when each due FileTime up to which at least two records lie is below the next one by more than the cursor adds |
| `SyncPaging.SpacedIsComplete` | background/synccron.go:122-215 | FileTimes at least 25 ticks apart make every break safe, whatever the page size |
| `SyncPaging.CloseFileTimesLoseABucket` | background/synccron.go:190-192 | a concrete index with two FileTimes too close together, of which the second bucket is never delivered |
| `SyncCycle.NextReadMeansMore` | server/admin.go:247-256 | a page that says nextread has delivered a bucket; one that does not has delivered all that was due |
| `SyncCycle.PageTurn` | background/synccron.go:190-207 | after each page the cursor is above the one before, fewer buckets are due, and the rest of the cycle is what the whole was, less the page |
| `SyncCycle.SyncClient.FetchBatch` | background/synccron.go:129-213 | one turn of the client loop keeps what was received and the cursor in step with the feed, whether the server's order was cached or is built for this page, and leaves fewer buckets due or ends the cycle with none due; a fetch error ends the cycle and changes nothing |
| `SyncCycle.SyncClient.RunCycle` | background/synccron.go:122-215 | the loop ends; without a fetch error it has received what the pages of the cycle hold; with one, what was received and what a cycle from the new cursor receives are together the whole; the cursor stands just above the last bucket received |
| `SyncSaves.PagingMissesNothing` | background/synccron.go:122-215 | over every run of pages, cache rebuilds and saves stamped at least 25 ticks above all earlier FileTimes: a bucket that shows anything is above the cursor, or has been delivered at its present FileTime with its present contents |
| `SyncSaves.NextReadRaisesCursor` | server/admin.go:247-256 | also with saves in between, every nextread page delivers a bucket and raises the cursor |
| `SyncSaves.CycleDeliversEachOnce` | background/synccron.go:122-215 | over a fixed index with spaced FileTimes the client receives exactly the buckets above its cursor that show anything, once each, in rising FileTime order |
| `DiskSafety.StepKeepsInv` | filedb/admin.go:581-619 | whatever step any writer, the snapshot job or a power loss takes: no file a reader uses, in any space a power loss may leave, is also a temp file that is being written or has bytes not yet on the disk |
| `DiskSafety.RunKeepsInv` | filedb/admin.go:581-798 | the same over every run of bucket writes, index writes, restores, quarantines, snapshots, pruning and power losses |
| `DiskSafety.SnapshotNeverChanges` | filedb/admin.go:671-771 | over every such run a published snapshot that is still there and is not being pruned reads the same under every path but those of temp files |
| `DiskSafety.SettledSnapshotStays` | filedb/admin.go:671-798 | once the disk has settled a published snapshot survives every run and every power loss until its pruning begins |
| `DiskSafety.LiveContentsKept` | filedb/admin.go:574-580 | no step changes the bytes of the file a live path is bound to: live files are replaced, never written |
| `DiskSafety.VersionsGrow` | filedb/admin.go:581-619 | what a live path may read as after a power loss changes only by the rename that ends a replacement, and by a quarantine |
| `DiskSafety.ReplacedOrNot` | filedb/admin.go:563-619 | from a settled disk, with one writer on the path and anything else beside it, power losses at any step included, the live path reads as the complete old bucket or the complete new one; the same for the index file |
| `DiskSafety.RestoredOrNot` | filedb/restore.go:112-134 | a restore leaves the bucket as it was or exactly as the snapshot has it, wherever it stops |
| `DiskSafety.FailuresLeaveLiveAlone` | filedb/restore.go:116-131 | replacements and restores that fail before their last rename leave the live bucket unchanged, however many there are and wherever power is lost |
| `DiskSafety.NeverTorn` | filedb/admin.go:563-580 | no run damages a live file, with a power loss possible at every step |
| `DiskSafety.PowerLossMayUndo` | filedb/admin.go:581-619 | until the disk settles a power loss may take back any of the steps: every name space there was may be found again |
| `DiskSafety.PowerLossMayTear` | filedb/admin.go:593-606 | until a file is synced a power loss may leave anything at all in it |
| `BucketFiles.Files.WriteBucket` | filedb/admin.go:581-619 | temp file, sync, rename: on success the live path reads as the whole new bucket, on any fault as before, and no other path or directory changes; every prefix is a run of the steps above |
| `BucketFiles.Files.WriteTemp` | filedb/admin.go:586-614 | a temp file that was written, synced and closed without a fault holds the goal on the disk; until then no live path has changed |
| `BucketFiles.Files.RestoreBucket` | filedb/restore.go:81-135 | succeeds exactly when the snapshot has a readable copy and nothing fails, and then the live path reads as the snapshot does; otherwise it is unchanged |
| `BucketFiles.Files.Install` | filedb/restore.go:116-131 | the copy is moved to the temp name, read back and renamed onto the live path, or the live path stays as it was |
| `BucketFiles.Files.QuarantineBucket` | filedb/writebucket.go:63-73 | the live path is gone, and unless the rename fails the bytes are kept under the corrupt name |
| `BucketFiles.Files.TakeSnapshot` | filedb/admin.go:704-763 | published exactly when it could be begun, the last rename succeeds, and there was a file under the bucket directory whose name does not end in the temp suffix and that could be linked; it then holds those names and the index with what they held; otherwise no snapshot is there that was not before |
| `BucketFiles.Files.DailyDataSnapshot` | filedb/admin.go:697-771 | published exactly when the date had none, it could be begun, the last rename succeeds and there was such a file; it then holds those names and the index, with what the live names held, and the old ones are pruned; a date that has one is left alone; live files are not touched |
| `BucketFiles.Files.LinkBuckets` | filedb/admin.go:719-741 | the walk links every bucket file that can be linked and none that ends in the temp suffix |
| `BucketFiles.Files.PruneDataSnapshots` | filedb/admin.go:775-798 | drops every unfinished snapshot and every published one whose name is a date before the cutoff, and nothing else |
| `BucketFiles.Files.SnapshotDays` | filedb/restore.go:28-55 | the published snapshots with a date, each once, newest first |
| `BucketFiles.Files.PickSnapshot` | filedb/restore.go:95-110 | the newest snapshot with a readable copy, or the wanted date; none exactly when there is no such copy |
| `Flush.StepKeepsGoodIff` | filedb/admin.go:270-296 | with any number of flushes and any saves: a step leaves the last saved version of every key waiting, held by a flush or in its file exactly when it is no swap of a key that another flush holds in another version, and no emptying save of such a key |
| `Flush.NothingLostIff` | filedb/admin.go:270-296 | over every run, failed writes and put-backs included, that holds in every state exactly when no step is such a swap or such an emptying save |
| `Flush.UnguardedStepLoses` | filedb/admin.go:270-296 | after such a step the flushes alone, with no further save, can lose the last version of a key: it is neither waiting nor held, and its file has another |
| `Flush.OneFlushIsGuarded` | filedb/admin.go:270-276 | one flush at a time, and no emptying save of a key it holds, is enough |
| `Flush.FlushedIsOnDisk` | filedb/admin.go:270-296 | after a run without such a step, when nothing waits and no flush is under way, every file holds the version saved last |
| `Flush.RaceIsReached` | filedb/admin.go:270-276 | two flushes can hold two versions of one key at a time |
| `Flush.TwoFlushersLoseAVersion` | filedb/admin.go:270-296 | from there the older version can be written last and stay |
| `Flush.EmptyingSaveIsUndone` | filedb/writebucket.go:143-149 | a save that empties a bucket while a flush holds it is overwritten by the flush |
| `BucketStore.Buckets.OpenRead` | filedb/filedb.go:163-182 | a read gives the version not yet written, else what the file holds; missing exactly when there is neither, damaged exactly when the file is and no version waits; whatever is cached, expired or evicted; what came from a file is cached as read now, while the cache has room for it |
| `BucketStore.Buckets.OpenReadNoCache` | filedb/filedb.go:187-196 | the same result without the cache |
| `BucketStore.Buckets.OpenReadOrEmpty` | filedb/writebucket.go:15-33 | a missing bucket reads as empty, a damaged one as empty with its file put aside, any other as itself |
| `BucketStore.Buckets.SaveBucket` | filedb/writebucket.go:127-205 | after a save the key reads as saved and all other keys as before; an empty bucket goes to its file at once and no older version is left waiting; a blank key does nothing |
| `BucketStore.Buckets.FlushDirtyBuckets` | filedb/admin.go:270-296 | no key reads differently after a flush, exactly the keys whose writes failed still wait, and the count is that of the others |
| `BucketStore.Buckets.RestoreBucketFromSnapshot` | filedb/restore.go:81-135 | refused for a blank key or one without a colon, while a version waits, or without a readable copy; otherwise the key reads as the copy at once, cache or not |
| `BucketStore.Buckets.ReadsWhatWasLast` | filedb/filedb.go:163-182 | in every state that saves, flushes, reads, evictions, expiries and restores lead to, a key reads as it was last saved or restored |
| `BucketStore.Buckets.EcGet` | filedb/evercache.go:28-46 | an entry is given exactly when caching is on and it was read within the time allowed; its time is renewed and no other entry changes |
| `BucketStore.Buckets.EcPut` | filedb/evercache.go:50-68 | the bucket is cached as read now; beyond the bound as many entries are dropped as configured, or 200, and none that was read later than one that stays; the cache stays a copy of the files |
| `BucketStore.Buckets.EvictOldest` | filedb/evercache.go:71-95 | drops as many entries as asked, and none that was read later than one that stays |
| `BucketStore.Buckets.EvictCache` | filedb/evercache.go:106-126 | drops only stale entries, at most as many as asked, and otherwise all of them |
| `DeepCopy.CopyValue` | filedb/evercache.go:138-185 | the copy stands for the same tree and every map and list in it is new |
| `DeepCopy.OneTree` | filedb/evercache.go:163-185 | a value stands for one tree, so equal trees are equal contents |
| `BucketAliasing.BucketMaps.SaveBucket` | filedb/writebucket.go:168-182 | what is kept stands for the bucket that was given, and none of the maps and lists of the caller becomes the store's |
| `BucketAliasing.BucketMaps.Kept` | filedb/filedb.go:163-170 | what is handed out stands for what is kept and shares no map or list with it |
| `BucketAliasing.BucketMaps.EcPut` | filedb/evercache.go:50-57 | what is cached is a copy, so the bucket handed to the caller is not shared with the cache |
| `BucketAliasing.BucketMaps.CallerWrites` | filedb/evercache.go:136-147 | whatever a caller does to a map that is not the store's own, the store keeps what it kept |
| `FastIndex.Indexes.RebuildIndexes` | filedb/filedb.go:279-296 | from the loaded keys: each key is listed under a part as often as it has it, lists are sorted and none is empty |
| `FastIndex.Indexes.SaveKey` | filedb/writebucket.go:183-205 | a save lists the key under each of its trimmed parts too, and nothing else anew; lists stay sorted |
| `FastIndex.Indexes.RemoveKey` | filedb/admin.go:122-140 | a removal takes the key out of every list and drops the lists that become empty |
| `FastIndex.RebuiltAgrees` | filedb/filedb.go:279-294 | after a rebuild k is listed under p exactly when k is a key and p a non-empty part of it, for all keys |
| `FastIndex.RebuiltOnceIff` | filedb/filedb.go:279-289 | a rebuild lists keys without repetition exactly when no key has the same part twice |
| `FastIndex.SeasonListedTwice` | filedb/filedb.go:279-289 | the key nba20242025:nba20242025, which a rebuild lists twice under its part |
| `FastIndex.SaveAgreesIff` | filedb/writebucket.go:183-204 | saving a new key keeps that agreement exactly when no part of the key has blanks at its ends: saves trim parts and rebuilds do not |
| `FastIndex.BlankBeforeYear` | filedb/writebucket.go:183-204 | the key nba: 2024, which a save and a rebuild list under different parts |
| `FastIndex.SaveAgainAgreesIff` | filedb/writebucket.go:183-204 | saving a key that is there already keeps it exactly when the trimming of each part is empty or again a part of the key |
| `FastIndex.RemoveAgrees` | filedb/admin.go:122-140 | removing any key keeps it, and so does a save that empties a bucket |
| `FastIndex.RunAgreesIff` | filedb/filedb.go:279-294 | over every run of rebuilds, removals and saves, from agreement, the index agrees with the keys in every state exactly when each save is of a blank key, of a new key without blanks at the ends of its parts, or of a known key that trims within itself |
| `FastIndex.LookupIsFullScan` | filedb/filedb.go:379-391 | looking a part up finds exactly the keys a scan of all keys finds |
| `Bencode.ReadBytesExact` | core/torrent_bencode.go:253-275 | a byte string is read exactly when its digits, colon and that many bytes stand there |
| `Bencode.PanicsExactlyOnOverflow` | core/torrent_bencode.go:268-273 | one read at a cursor faults exactly when the announced length still fits an int but its sum with the position does not |
| `Bencode.LargestLengthPanics` | core/torrent_bencode.go:268-273 | the length 9223372036854775807 with a colon after it faults wherever it is read |
| `Bencode.SkipSound` | core/torrent_bencode.go:203-251 | what is skipped is one value of the grammar |
| `Bencode.SkipComplete` | core/torrent_bencode.go:203-251 | every value of the grammar is skipped whole |
| `Bencode.SkipDecidesGrammar` | core/torrent_bencode.go:203-251 | skipping from i ends at j exactly when the bytes from i to j are a value of the grammar; it always ends, inside the bytes |
| `TorrentMeta.MetaOfTorrent` | core/torrent_bencode.go:89-137 | for an encoded root dictionary the result is the last info value's own bytes and the announces in order, or an error exactly when a field of the wrong kind is in it |
| `TorrentMeta.MetaOnlyOfTorrents` | core/torrent_bencode.go:89-137 | a result is given exactly for data that begins with a root dictionary with fields of the right kinds |
| `TorrentMeta.InfoOfIsEncoding` | core/torrent_bencode.go:116-122 | the info bytes are the encoding of one of the values under info, byte for byte |
| `TorrentMeta.LastInfo` | core/torrent_bencode.go:116-122 | of several info entries the last one counts |
| `TorrentMeta.AnnouncesInOrder` | core/torrent_bencode.go:99-115 | the announces of earlier entries stand before those of later ones |
| `TorrentMeta.TierOfOne` | core/torrent_bencode.go:167-201 | a tier is one text or the texts of a list, in order |
| `TorrentMeta.NameOfInfo` | core/torrent_bencode.go:139-165 | for any encoded value the name is that of its first name entry, when that is a string, and otherwise nothing |
| `TorrentMeta.AnnounceListExact` | core/torrent_bencode.go:167-201 | of an encoded announce-list the texts of all tiers are read in order, or it fails exactly when a tier is neither text nor a list of texts |
| `BencodeReader.Reader.ParseBytes` | core/torrent_bencode.go:253-275 | the cursor method reads what the grammar's reader reads, faults included, and leaves the cursor behind it |
| `BencodeReader.Reader.SkipValue` | core/torrent_bencode.go:203-251 | the recursive cursor method skips what the grammar's reader skips |
| `BencodeReader.Reader.ParseAnnounceList` | core/torrent_bencode.go:167-201 | the loops over tiers collect the texts in order |
| `BencodeReader.ParseTorrentMeta` | core/torrent_bencode.go:89-137 | the whole parse gives the info bytes, announces and name, or the error or fault, that the grammar's reader gives |
| `BencodeReader.TorrentNameFromInfo` | core/torrent_bencode.go:139-165 | the loop over the info dictionary finds the name, or nothing on any error |
| `Magnet.BuildTorrentMagnet` | core/torrent_bencode.go:61-87 | without a hash nothing; else magnet:?xt=urn:btih: and the hash trimmed and lowered, then dn= and the escaped name exactly when the trimmed name is not empty, then a tr= with the escape of each trimmed announce that is not empty, rising and each once, with an ampersand before each piece |
| `Text.LessMeans` | core/torrent_bencode.go:83-86 | the order of the trackers: a proper beginning comes first, or what has the smaller byte where they first differ |
| `Magnet.UniqueContents` | core/torrent_bencode.go:69-82 | the announces kept are the non-empty trimmed ones, without repetition |
| `Magnet.MagnetDependsOnAnnounceSet` | core/torrent_bencode.go:61-87 | two lists with the same set of announces give the same link |
| `Magnet.TorrentBytesToMagnet` | core/torrent_bencode.go:28-59 | the whole function, with or without trackers |
| `Magnet.TorrentLinkMeans` | core/torrent_bencode.go:28-87 | the link of a readable torrent: the hash of the bytes of its last info value, the first name in it, and the announces of the file, rising and each once, or none of them without trackers |
| `Magnet.SmallTorrentLinks` | core/torrent_bencode.go:28-87 | a torrent of one announce and a name, and its two links, written out for any announce and name |
| `Magnet.OverflowTorrentPanics` | core/torrent_bencode.go:28-137 | the file d9223372036854775807: makes the whole function fault, with or without trackers |
| `TorrentFaults.SkipFaultsIff` | core/torrent_bencode.go:203-275 | skipping a value faults exactly when such a length stands where a byte string is due: after whole items of each open list and whole entries, or the key of the next one, of each open dictionary |
| `TorrentFaults.MetaFaultsIff` | core/torrent_bencode.go:89-201 | parsing a file faults exactly when it begins with a root dictionary that can be read so far, with the announce fields read as their keys demand, and such a length stands there |
| `TorrentFaults.MagnetFaultsIff` | core/torrent_bencode.go:28-59 | building the link faults for exactly the same files, with or without trackers |
| `TorrentFaults.NoOverflowNoFault` | core/torrent_bencode.go:28-137 | a file in which no digits with a colon after them name a length that overflows where it stands makes neither fault |
| `Magnet.BareMagnetDependsOnInfo` | core/torrent_bencode.go:40-59 | the link without trackers is the same for any two torrents with the same info bytes |
| `Magnet.FullMagnetDependsOnInfoAndAnnounces` | core/torrent_bencode.go:28-38 | the full link depends on the info bytes and the set of announces only |
| `Magnet.TorrentGivesMagnet` | core/torrent_bencode.go:28-59 | a readable torrent gives a link exactly when it has an info entry, and never faults |
| `CronField.FillField` | background/scheduler.go:338-383 | in place: sets exactly the bits of the values the field's elements cover beside those set before, and succeeds exactly when every element is right and in range |
| `CronField.SetElement` | background/scheduler.go:378-380 | the inner loop sets lo, lo+step and so on up to hi, and no other bit |
| `CronField.ParsePrintedTerm` | background/scheduler.go:344-377 | a written element is accepted exactly when in range, and then covers what the notation means: n alone is n, n/step with a step above 1 runs on to the maximum (INPUT FILES section of the crontab utility in POSIX.1-2017, with steps) |
| `CronField.ParsePrintedField` | background/scheduler.go:338-383 | a written field is accepted exactly when all its elements are, and covers a value exactly when one of them means it |
| `CronField.FieldAlphabet` | background/scheduler.go:338-383 | an accepted field holds digits, signs, stars, slashes and commas only |
| `CronSchedule.CompileSchedule` | background/scheduler.go:311-334 | the bit sets are those of the five fields, and compiling succeeds exactly when all five parse |
| `CronMeaning.FiresAsWritten` | background/scheduler.go:311-401 | a schedule of five written fields is accepted exactly when every term is in range, and fires at a minute exactly when some term of the minute, hour and month fields means that part of it and the day rule holds: with neither day field a lone star either of them, with one of them the other, with both every day |
| `CronMeaning.ThirteenthOrFriday` | background/scheduler.go:385-401 | 0 0 13 * 5 fires at midnight of every thirteenth and of every Friday, and at no other minute |
| `CronSchedule.Bits.Matches` | background/scheduler.go:385-401 | the bit test decides whether the minute matches the schedule, with cron's either-day rule |
| `CronSchedule.NextRun` | background/crontabfile.go:250-263 | the least matching minute after the time given, or none exactly when no minute of the next 366 days matches or the text is no schedule |
| `CronSchedule.HorizonSuffices` | background/crontabfile.go:248-263 | a valid schedule whose days include any other than 29 February has a match within the 366 days searched |
| `CronSchedule.OnlyLeapDays` | background/crontabfile.go:248-263 | every other valid schedule matches on 29 February or never |
| `Calendar.DateOfDayNumber` | background/scheduler.go:385-391 | the calendar gives each Gregorian date back from its day number |
| `CronMeaning.NextDay` | background/scheduler.go:385-391 | the day after a date is the next of the month, or the first of the next month or year |
| `CronMeaning.KnownDays` | background/scheduler.go:385-391 | 1 January of the year 1 is day 0, 1 January 1970 is day 719162 and a Thursday, and weekdays follow each other |
| `CronMeaning.MonthLengths` | background/scheduler.go:385-391 | the twelve months of a common and of a leap year |
| `CronMeaning.LeapYears` | background/scheduler.go:385-391 | every fourth year is a leap year, and of the hundreds every fourth |
| `CronMeaning.MomentParts` | background/scheduler.go:385-387 | a minute is told by its day, hour and minute |
| `Calendar.EveryDateWithin366` | background/crontabfile.go:256-261 | within any 366 days every month and day but 29 February comes |
| `Calendar.EveryWeekdayWithin366` | background/crontabfile.go:256-261 | within any 366 days every weekday comes in every month |
| `JobLine.MatchJobExact` | background/scheduler.go:68-70 | reading a job line from left to right finds pieces exactly when the line is those pieces put together, so the pieces are unique |
| `Crontab.ParseCrontabEntries` | background/crontabfile.go:52-90 | every line becomes one entry, in order |
| `Crontab.RenderCrontabEntries` | background/crontabfile.go:125-150 | every entry becomes one line, in order |
| `Crontab.ParseJobLineMeans` | background/crontabfile.go:92-118 | a line read as a job is put together from a runnable schedule, curl, flags and a quoted URL, and the parts read are those |
| `Crontab.RenderedBodyParses` | background/crontabfile.go:126-149 | the printed parts of a job are read back as the same parts; a job without blanks before its command gets four |
| `CrontabLaws.RenderedLineParses` | background/crontabfile.go:52-150 | a printed entry that came from parsing is read back as itself, but that a disabled job loses its indent, a job without blanks before its command gets four, and a text line loses a carriage return at its end |
| `CrontabLaws.PrintedUnchanged` | background/crontabfile.go:125-150 | a job line is printed as it stood exactly when its curl command was written the printer's way with nothing after it, and, for a disabled job, a hash and one blank stood before it |
| `CrontabLaws.PrintedFileUnchanged` | background/crontabfile.go:52-150 | a whole file is printed as it stood exactly when it is empty or ends with a line feed, no line ends with a carriage return, and all its job lines are such lines |
| `CrontabLaws.CrontabRoundTrip` | background/crontabfile.go:52-150 | for every file, parsing what was printed from its entries gives every entry again, line by line, but for those three things |
| `CrontabLaws.ParseCrontab` | background/scheduler.go:265-296 | the scheduler's own loop loads the runnable lines, in order |
| `CrontabLaws.LineAgreement` | background/scheduler.go:268-290 | the editor reads a line as an enabled job exactly when the scheduler loads it, with the same URL and schedule |
| `CrontabLaws.EditorAndSchedulerAgree` | background/scheduler.go:265-296 | for every file the enabled entries are exactly, in order, the jobs the scheduler loads, with the same five fields |
| `CrontabWrite.ValidateCrontabEntries` | background/crontabfile.go:158-197 | all complaints about all entries, in order, line breaks counting as white space where the source trims and splits |
| `CrontabWrite.WriteCrontabEntries` | background/crontabfile.go:201-235 | the printed entries are written exactly when there is no complaint and they read back as the same number of jobs |
| `CrontabWrite.AcceptedIff` | background/crontabfile.go:158-197 | there is no complaint exactly when every text line has no line break, and every job has five fields that are a schedule, an address that begins http://, https:// or / and has no quote and no blank, and flags that begin with a dash and have no quotes |
| `CrontabWrite.ComplaintMeans` | background/crontabfile.go:158-197 | an entry is complained of exactly for what is wrong with it, kind by kind; of an address only the first fault is named |
| `CrontabWrite.SavedFileReadsBackIff` | background/crontabfile.go:199-225 | a file without complaint is read back entry by entry exactly when every job has no line feed in its schedule, its URL or within its flags and its flags are dashes and letters, and no text line is a job line |
| `CrontabWrite.JobReadsBackIff` | background/crontabfile.go:158-225 | the same for a file of one job |
| `CrontabWrite.LineReadsBackIff` | background/crontabfile.go:92-150 | taken as one line, a job without complaint, with the blank indent and gap that the editor's JSON leaves it, is read back with its parts trimmed as the code trims them exactly when its flags are dashes and letters; otherwise it is not read as a job |
| `CrontabWrite.FaithfulIsWritten` | background/crontabfile.go:207-213 | then the counts agree, so it is written |
| `CrontabLost.JobIsLost` | server/server.go:1458-1481 | a job with other flags beside a text line that is a job line: no complaint, equal counts, and the job is read back as text |
| `CrontabLost.DashFourIsLost` | server/server.go:1458-1481 | the same with the flags -4, entry by entry |
| `CrontabLost.LineFeedIsLost` | server/server.go:1458-1481 | the same with a line feed at the end of the schedule: it is printed over two lines, and neither is a job |
| `RunGuard.StepKeepsInv` | background/scheduler.go:135-157 | ticks, finished requests, watcher polls and safe reloads keep: a set flag has one reason, a job whose flag stems from a request in flight is listed or has a successor that watches it, and no two requests of a job are in flight |
| `RunGuard.StepKeepsBase` | background/scheduler.go:135-249 | all of them, with any file at all, keep: a set flag has one reason, and watchers tie older jobs to newer ones of the same key |
| `RunGuard.AtMostOneInFlight` | background/scheduler.go:135-249 | over every run in which each file that is loaded lists no job twice and every job with a request in flight, at most one request per job is in flight |
| `RunGuard.ReloadGuardedIff` | background/scheduler.go:227-244 | after a reload every job whose flag stems from a request in flight is still listed or watched exactly when every job with a request in flight is still in the file |
| `RunSteps.TickIs` | background/scheduler.go:135-157 | a tick starts exactly the listed jobs that are due and whose flag is clear, and changes nothing else |
| `RunSteps.ReloadIs` | background/scheduler.go:220-249 | a usable file: its i-th line is a new job with the line's key, whose flag is set exactly when that of the last listed job with the key was, and then it watches that job |
| `RunAgain.ReloadSafeIff` | background/scheduler.go:201-249 | no sequence of ticks, finished requests, polls and safe files after a reload puts two requests of a job in flight, exactly when the file is safe: it has no usable jobs, or lists no job twice and every job with a request in flight |
| `RunAgain.NeverAgainIff` | background/scheduler.go:135-249 | over every run of anything and any files: that holds in every state exactly when every file was safe when it was loaded |
| `RunAgain.DroppedRunsTwice` | background/scheduler.go:227-244 | for every state and file that drops a job with a request in flight: the next safe file and tick start it again beside that request |
| `RunAgain.ListedTwiceRunsTwice` | background/scheduler.go:227-244 | for every state and file that lists a job twice: once its requests have returned and its watchers have looked, the next tick starts it twice |
| `RunAgain.TwoLinesRunTwice` | background/scheduler.go:135-157 | a file of two equal lines, loaded by an empty scheduler, and the tick that starts both |
| `RunAgain.DroppedJobRunsTwice` | background/scheduler.go:227-244 | a running job that is dropped from the file and put back is started a second time |
| `RunFlags.FlagsClearInFinitelyManyPolls` | background/scheduler.go:234-241 | once no request of a key is in flight and until it is due or reloaded again: after as many rounds as the key has watchers, in each of which every watcher left looks at least once, in any order and with any other events between, every flag of the key is clear |
| `RunFlags.SomeWatcherReady` | background/scheduler.go:234-241 | as long as a carried flag of an idle key is set some watcher can clear one |
| `RunFlags.ClearingsAreBounded` | background/scheduler.go:234-241 | in every such run each flag that is cleared takes one watcher away and nothing else does, so at most as many looks change anything as there were watchers |
| `RunFlags.ReadyUntilPolled` | background/scheduler.go:236-240 | in every such run a watcher that could clear its flag still can until it looks, and is gone once it has |
| `SchedulerObject.Scheduler.TickOnce` | background/scheduler.go:135-157 | a tick starts exactly the due jobs whose flag is clear |
| `SchedulerObject.Scheduler.ReloadFile` | background/scheduler.go:201-249 | an unchanged file is not read; one without usable jobs changes nothing; otherwise, whatever the file lists, the new jobs take over the flags of running ones with their key; the guard is kept when the file is safe |
| `SchedulerObject.Scheduler.CarryOver` | background/scheduler.go:227-244 | the loop over the new jobs sets the carried flags and starts a watcher for each |
| `SolverProtocol.StepKeepsInv` | core/fetcher.go:1407-1595 | every step of every caller, of the clock and of a dropped session keeps: a lock has one holder, the browser slots are held by callers inside, callers past the cooldown check found none, and unforced ones past the session check found no session |
| `SolverProtocol.OnlyHolderChanges` | core/fetcher.go:1424-1595 | the failure mark and the session of a domain are changed only by a step of the caller that holds its lock, but that a session can be dropped by anyone |
| `SolverProtocol.AtMostTwoNavigate` | core/fetcher.go:1424-1454 | in every interleaving at most two callers are in the browser and at most one for a domain |
| `SolverProtocol.NavigationsAreDue` | core/fetcher.go:1431-1454 | no navigation starts within the cooldown of the last failed solve of its domain, nor by an unforced caller while a usable session is cached, in every interleaving |
| `SolverProtocol.RecheckReuses` | core/fetcher.go:1428-1435 | in every interleaving an unforced caller whose check under the lock finds a usable session is from then on bound to return that session, and is in the browser at no time before or after |
| `SolverProtocol.BrowsersMissed` | core/fetcher.go:1428-1454 | in every interleaving an unforced caller that is in the browser, or past that check on its way there, found no usable session at it |
| `SolverProtocol.ResultStands` | core/fetcher.go:1424-1426 | whatever others do, a caller on its way out returns that result |
| `SolverProtocol.DecidedFor` | core/fetcher.go:1407-1595 | in every interleaving, when a result is decided: a refusal has its reason, a session that is given again is the cached one, usable and not forced, a solved one is cached with no failure mark left, and a failed solve is marked |
| `SolverProtocol.ShutdownStopsNavigation` | core/fetcher.go:1407-1454 | in every interleaving, once a shutdown has begun no caller short of the browser slots ever reaches the browser |
| `SolverProtocol.RefusedAtOnce` | core/fetcher.go:1407-1424 | a shutdown or a cooldown found before the lock answers the call without waiting for anyone |
| `SolverProtocol.NoDeadlock` | core/fetcher.go:1424-1454 | while any call has not returned, some caller can step or is being answered by the browser |
| `SolverProtocol.EveryCallEnds` | core/fetcher.go:1407-1595 | a call makes at most eleven steps, and has returned when they are used up |
| `FlareFetcher.Fetcher.FlareCooldownRemaining` | core/fetcher.go:359-371 | blocked exactly within three minutes of a marked failure, with the time that is left |
| `FlareFetcher.Fetcher.GetFlareSession` | core/fetcher.go:1277-1294 | a session is given exactly when it is cached, not past its time and not without cookies |
| `FlareFetcher.Fetcher.SolveFlare` | core/fetcher.go:1407-1595 | a call alone: shutting down; else cooling down; else, unless forced, the cached session when it is usable; else the browser's answer; a failure or an answer without cookies is marked, a success clears the mark and is cached, and lock and slot are free again |
| `ReplayGuard.CondemnedByTwoStrikes` | core/fetcher.go:476-486 | in every history a domain is condemned exactly when there were two strikes less than ten minutes apart with nothing but questions between them and no working replay since, and its time is that of the last such second strike |
| `ReplayGuard.ChallengeCondemnsIff` | core/fetcher.go:476-486 | a challenge condemns exactly when a first strike, a challenge that completed no pair, came less than ten minutes before it with nothing but questions between |
| `ReplayGuard.ProbesIff` | core/fetcher.go:409-421 | a question goes through as a probe exactly when a second strike lies less than six hours back and no probe less than five minutes, no replay having worked since |
| `ReplayGuard.ProbesAreApart` | core/fetcher.go:409-421 | two probes of a condemned domain with no working replay between them are at least five minutes apart |
| `ReplayGuard.SkippedIff` | core/fetcher.go:409-421 | a request skips the replay exactly when a second strike lies less than six hours back and a probe less than five minutes, no replay having worked since either; so one five minutes after the last probe is let through |
| `ReplayGuard.TwoChallenges` | core/fetcher.go:409-486 | challenged at 0 and 60 and probed at 61, the replay is skipped until 361 |
| `ReplayGuard.ReplayMaps.SkipReplay` | core/fetcher.go:409-421 | the map code answers and changes its domain as the automaton does, and no other domain |
| `ReplayGuard.ReplayMaps.MarkReplayHostile` | core/fetcher.go:476-486 | likewise for a challenge |
| `ReplayGuard.ReplayMaps.ClearReplayHostile` | core/fetcher.go:424-430 | a working replay forgets everything about its domain |
| `ReplayGuard.ReplayMaps.ReplayHostile` | core/fetcher.go:438-443 | tells whether the domain is condemned now |
| `TaskMap.PruneTaskPages` | core/taskpages.go:26-37 | keeps the pages up to the last one, in order; a pager that was not read prunes nothing |
| `TaskMap.PruneTaskPagesIfRead` | core/taskpages.go:51-56 | the same, only with evidence that the page was a listing |
| `TaskMap.UpToInOrder` | core/taskpages.go:26-37 | what is kept keeps its order, and nothing comes twice that did not before |
| `TaskMap.RebuildSection` | cron/anibelka/anibelka.go:528-551 | the rebuilt list is, in strictly rising order, the pages that were there and those of the pager, without those past its end, each with the stamps it had |
| `TaskMap.RebuiltMeans` | cron/anibelka/anibelka.go:528-551 | a task is on the rebuilt list exactly when its page is not past a pager that was read, and it is the last task that had the page, or the page is one of the pager's and it has no stamps |
| `TaskMap.RebuiltIsWholeRange` | cron/anibelka/anibelka.go:528-551 | with a pager that was read and no negative pages, page i stands at index i for 0 up to the last page, with its stamps |
| `TaskMap.RebuiltLosesNothing` | cron/anibelka/anibelka.go:528-551 | with a pager that was not read no page is lost |
| `TaskMap.RebuiltUnique` | cron/anibelka/anibelka.go:528-551 | these requirements leave one list, whatever order the map is walked in |
| `TaskMap.CycleSlotsFromMap` | core/parseallcycle.go:243-268 | every place of the map exactly once, by category and then page |
| `SweepCycle.CountExtremes` | core/parseallcycle.go:158-166 | the count is zero exactly when no page is pending, and that of all pages exactly when every one is |
| `SweepCycle.CountIsSize` | core/parseallcycle.go:158-166 | the count is the number of slots that do not carry the cycle's id |
| `SweepCycle.BegunIs` | core/parseallcycle.go:179-204 | what is begun: without a usable checkpoint the new cycle, with the pages of today taken over; when every page carries the id the new cycle with nothing taken over; otherwise the old one, with its own start |
| `SweepCycle.BeginCountsPending` | core/parseallcycle.go:179-204 | the pending count returned is the count over the map the run works on, exactly unless a rotation met a slot that already carries the new id |
| `SweepCycle.RotationMeansDone` | core/parseallcycle.go:195-203 | a loaded cycle is given up exactly when a full sweep finds pages and all of them settled; then every page is owed again; a partial task never rotates |
| `SweepCycle.AfterAllAt` | cron/anibelka/anibelka.go:707-721 | attempts at different pages leave each page as its own attempt leaves it, and the others alone |
| `SweepCycle.AttemptLeaves` | core/parseallcycle.go:212-229 | what the attempt at a page leaves: a success stamps it with the cycle and the day and clears its count, a failure adds one, the third failure stamps it with the cycle alone, and a failed save changes nothing |
| `SweepCycle.PlannedContents` | cron/anibelka/anibelka.go:597-606 | a run visits exactly the pending pages of known sections (all pages when forced) |
| `SweepCycle.PlannedInOrder` | cron/anibelka/anibelka.go:597-606 | the visits of a section come in the order of its list |
| `SweepRuns.RunAt` | cron/anibelka/anibelka.go:571-644 | a run that is not cancelled attempts each pending page of a known section once, any run leaves all other pages alone |
| `SweepRuns.AttemptUsesWork` | core/parseallcycle.go:212-229 | with unique pages and fail counts below the budget every attempt whose save does not fail lowers the sum, over the pending pages, of what is left of the budget |
| `SweepRuns.AttemptsAreBounded` | core/parseallcycle.go:39-47 | within a cycle any number of runs, cancelled or not, make together at most three attempts a page |
| `SweepRuns.SettledStaysSettled` | core/parseallcycle.go:30-32 | a settled page keeps its stamps through every run that joins its cycle and is not attempted again |
| `SweepRuns.ThreeRunsSweep` | core/parseallcycle.go:39-47 | after one of three complete runs every page of a known section is settled, whatever fails |
| `SweepRuns.ThreeRunsFinishIff` | core/parseallcycle.go:39-47 | three complete runs finish the cycle exactly when the map held no unsettled page of a section the parser does not know |
| `SweepRuns.StrandedForever` | cron/anibelka/anibelka.go:597-601 | a map with one page of a section that is not among the known ones, whatever these are: three complete runs without a failure do not settle it |
| `AnibelkaParser.Parser.UpdateTasksParse` | cron/anibelka/anibelka.go:516-557 | every section whose first page was fetched is rebuilt, all others are left alone |
| `AnibelkaParser.Parser.Settle` | cron/anibelka/anibelka.go:707-721 | in place: exactly the slots of the page get the cycle and the day on success, one failure more, or on the third the cycle without the day |
| `AnibelkaParser.Parser.BeginCycle` | cron/anibelka/anibelka.go:689-702 | through the slots of the map: the cycle, the carried pages and the pending count are those of the cycle logic, and the checkpoint is written |
| `AnibelkaParser.Parser.ParseAllTask` | cron/anibelka/anibelka.go:571-644 | refused while one is running; given up when a rebuilt map cannot be written; otherwise the attempts are the first of the plan up to a cancellation, all of them exactly when it finishes, and the map is what those attempts leave; what an unforced call leaves, map and checkpoint, is what one run of the sweep leaves |
| `AnibelkaParser.CallIsOneRun` | cron/anibelka/anibelka.go:571-644 | such attempts, map and checkpoint are those of one run of the sweep |

## Left out
- JSON, gzip, MD5, SHA and the URL escape: file contents are whole or damaged, paths are injective in keys, and the hash and escape of a magnet are functions that are given.
- Machine integers but for the cursor of the bencode reader: FileTimes near the ends of the 64-bit range, and cron values that step past them.
- White space other than the space, the tab, the line feed, the form feed and the carriage return (the vertical tab and what lies outside ASCII), and the scanner's limit on the length of a line.
- Time zones and daylight saving: instants have a fixed offset and the calendar is Gregorian.
- SyncPaging.CollectPage: does not model what a record looks like in the feed, neither the stubs sent once start is set nor the enrichment with tracks, because the claim is which buckets are delivered.
- SyncPaging.SyncServer.HandleSyncFdbTorrents: does not model how a tracker's name is trimmed and compared without case; a record's tracker and the disabled ones are names made alike.
- SyncCycle.SyncClient.RunCycle: does not model the import of what is received, its filters, or the state files, because nothing in them moves the cursor.
- The first version of the sync protocol, the spidr loop, and importTorrent, which stamps saves with times of the past.
- DiskSafety.SnapshotNeverChanges: does not cover the names of temp files, because an interrupted restore leaves a partial file that a snapshot links and the next restore writes again.
- BucketFiles.Files.DailyDataSnapshot: does not model the copy of the index that is made when it cannot be linked, and PruneDataSnapshots removes a directory in one step where the system removes its files one by one (the state machine has both).
- The daily copy of the index under its own date, and its pruning.
- Two writers on one path at a time: the background flush and the one inside a save of the index are not serialised in the source, and share one temp name.
- BucketStore.Buckets.OpenRead: is one step, because a reader between the swap of a flush and its write sees the file before it.
- BucketStore.Buckets.OpenReadOrEmpty: does not follow the damaged copy that is kept under another name (BucketFiles.Files.QuarantineBucket does), nor read errors other than a missing or a damaged file.
- UpdateTorrentFfprobeInfo and RemoveNullValues, which write bucket files past the caches.
- The per-key locks, the FNV shard of a key and the audit log, except that a logged save reads the bucket first.
- FastIndex.Indexes.RebuildIndexes: starts from the keys that were loaded; reading the index file, the migration of old ticks and the walk over all bucket files when it is missing are not modelled.
- BucketAliasing.BucketMaps.Kept: finds a bucket by key where the source has a path for the cache, and models lists of strings as lists of values; values of other types than JSON decoding gives are shared by the source.
- Magnet.BuildTorrentMagnet: takes the hash of the info bytes and the escape of a string as functions.
- Warnings of the crontab parsers, and the words of the complaints.
- RunGuard.AtMostOneInFlight: the key of a job is a string; two jobs whose spec and URL, joined by a blank, are the same string are one job here as they are to the reload.
- Firing a job: the request, its run history and its time limits.
- CrontabWrite.SavedFileReadsBackIff: is about blank indents and gaps, because the one caller that writes entries decodes them from JSON, which carries neither; that an empty file of entries is refused is left to that caller.
- The other ways into the browser (PostViaBrowser, SolveForLogin, LoginViaFlare), which look at the cooldown before taking the lock only; eviction of idle domain locks; the browser service itself, its sessions and its reaper.
- ReplayGuard.CondemnedByTwoStrikes: an event is a question, a challenge of a fresh clearance or a working replay; how a response is recognised as a challenge is not modelled.
- SweepRuns.AttemptUsesWork: excludes attempts whose save fails, because they spend nothing and a page that always fails to save is never settled.
- SweepRuns.ThreeRunsFinishIff: is about a fixed map; UpdateTasksParse between runs adds pages that the next run sweeps.
- AnibelkaParser.Parser.ParseAllTask: has one date for a whole run, where the source asks the clock at each page it marks.
- The other parsers that use the cycle, flat and nested task maps, tracker pages, the web server, search, configuration, downloads, the TLS client and statistics.
