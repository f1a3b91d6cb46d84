# HMDFS protocols and data structures in Dafny

HMDFS is a distributed file system: devices cache each other's directories, write
pages back over the network, stash dirty pages locally while a peer is offline, and
show all devices merged in one tree.  This project models the parts of it that carry
state or arithmetic and proves what they are there for.  To check the whole project:
`dafny verify dfyconfig.toml`.

| files | part of the system |
|---|---|
| `DentryLayout`, `DentryGroup`, `DentryIndex`, `DentryFile`, `DentryRuns`, `NameHash` | the on-disk directory index: a multi-level hash file whose groups hold a slot bitmap, records and names |
| `Readdir` | listing that index through resumable 64-bit positions |
| `StashFile`, `StashRestore` | the stash file: sparse data, head, path, replaying it, and which files are kept |
| `StashProtocol`, `StashRuns`, `RebuildHandshake` | offline stash and online restore: states, lists, counters and references of inodes |
| `SyncFs`, `SyncFsRuns` | the serialisation of `syncfs` callers, the accounting of its rounds, and what a result tells |
| `WritePage` | the ownership of page writes on their way |
| `ConflictName`, `NameTree`, `MergeListing`, `MergeSession`, `Comrades`, `MergeLookup` | the merged view: names for conflicts, the tree of names, listing in one call and in several, parallel lookup |
| `Freshness` | trusting caches by change time |
| `FidTable` | file ids and their epochs on the server |
| `Throttle` | dirty-page thresholds in fixed-point arithmetic |
| `PathCheck` | the two tests for ".." in paths |
| `Bytes` | little-endian fields |

How it is put together:

- Code that edits buffers, lists and fields step by step is written as methods and
  classes with loops; each is proved equal to a function on values, and the theorems
  are about those functions.  Code shared between threads is a state machine with one
  event for each region that nobody else can enter, and separate events for the accesses to
  a variable that not everyone locks; the theorems quantify over every sequence of
  events from an initial state.
- The index keeps its group size, name hash and case mode as parameters, so the plain
  file (80 slots a group) and the cloud file (60 slots) are both instances;
  `NameHash.IndexConfigValid` shows that the real hash meets the only thing the index
  asks of it.  `maxGroups` is the largest size to which the backing store lets the file grow;
  the index is exact while that is below 2^32 groups, which is also where the 32-bit group count ends.
- Files are sequences of bytes or groups, times are integers, crc32 is any function.

Where the code does not do what one would expect, the model follows the code, and a
lemma says exactly when:

- Renaming a name to itself, or only in case in a case-insensitive index, removes it: the
  last deletion hits the new entry (`DentryRuns.RenameCorrect`).  A rename that
  finds no space has already removed the target.
- A `syncfs` executor stores a failed send without the lock that callbacks hold between testing
  and storing the same variable, so a success can overwrite the failure and the caller gets 0
  (`SyncFsRuns.LostFailure`); `SyncFsRuns.ResultOfRound` says exactly when it gets 0.
- A `syncfs` caller released without a sync of its own returns 0 whatever became of the sync
  that covers it; `SyncFsRuns.ReleasedResult` says exactly when that sync succeeded.
- Positions of a device id of 16 bits decode to a different number, yet listings resume with
  them.  They fail to resume for device ids that are multiples of 2^16, and a file of 2^31 groups or
  more, which an index may have, is listed as empty (`Readdir.PosRoundTrip`, `Readdir.NeverEnds`,
  `Readdir.TooManyGroups`; `Readdir.ResumableIff` has the exact condition).
- Whether a name that is a file on one device and a directory on another looks up as the one or the
  other depends on who answers first (`Comrades.KindIff`).
- Restoring a stash file whose remote file turns out to be another inode counts as a success and
  deletes the stash file without copying (`StashRestore.RestoreFile`).
- The room reserved for a conflict name holds device ids below 10000 and no more
  (`ConflictName.GuardFits`); a name whose extension ends in the directory mark is mangled to
  something read back as a directory (`ConflictName.MangleFileRoundTrip`).
- A threshold can exceed its configured value when configured values are more than a factor of
  about 1024 apart (`Throttle.RunBelowIff` has the exact condition).
- Pages stashed for an inode without a dentry have no path and are lost when the stash file is
  flushed (`StashFile.MetadataReadBack`).
- An open that fails after it has put its file into the table drops the table's reference even if a
  release has removed the id meanwhile, so the file loses a reference (`FidTable.RudeRelease`);
  `FidTable.ConservedIff` and `FidTable.PoliteConserves` say when references add up.
- An open within the precision after a file's last change can keep stale pages; no other
  open can (`Freshness.FreshIff`).

## Model

| member | source | states |
|---|---|---|
| `DentryLayout.BucketAddrInverse` | hmdfs-bak/hmdfs_dentryfile.c:426-444 | level and offset are recovered from every bucket address, and the bucket lies inside its level's part of the file |
| `DentryLayout.BucketAddrOnto` | hmdfs-bak/hmdfs_dentryfile.c:426-444 | every bucket number below the last level is the address of exactly its (level, offset): addressing is a bijection onto a contiguous range |
| `DentryLayout.MaxDepthOfWholeLevels` | hmdfs-bak/hmdfs_dentryfile.c:611-618 | a file of whole levels reports exactly its number of levels |
| `DentryLayout.LevelPresent` | hmdfs-bak/hmdfs_dentryfile.c:882-896 | a bucket lies inside a file of whole levels if and only if its level is one of them |
| `DentryLayout.FileSizeExact` | hmdfs-bak/hmdfs_dentryfile.c:459-476 | the 64-bit size and the 32-bit group count agree with the intended number of groups if and only if the level is at most 30 |
| `DentryGroup.ZeroGroup` | hmdfs-bak/hmdfs_dentryfile.c:890-896 | an unwritten group is well formed and lists nothing |
| `DentryGroup.SlotsLeast` | hmdfs-bak/hmdfs_dentryfile.h:131-134 | a name takes the fewest slots of eight bytes that hold it |
| `DentryGroup.WalkIsLinear` | hmdfs-bak/hmdfs_dentryfile.c:672-697 | in a well-formed group the walk that jumps over extents and the scan that tests every slot see the same heads in the same order |
| `DentryGroup.FirstFitLowest` | hmdfs-bak/hmdfs_dentryfile.c:824-842 | first fit yields the lowest run of free slots that is long enough, or none exists |
| `DentryGroup.RoomForFilename` | hmdfs-bak/hmdfs_dentryfile.c:824-842 | the loop over next-zero and next-set bits is first fit |
| `DentryGroup.InsertedWellFormed` | hmdfs-bak/hmdfs_dentryfile.c:779-822 | writing a name into a free run keeps the partition into extents: one head, zero-length continuations, nothing overlapping |
| `DentryGroup.InsertedOneMore` | hmdfs-bak/hmdfs_dentryfile.c:779-822 | it adds exactly its own entry and changes no other |
| `DentryGroup.RemovedWellFormed` | hmdfs-bak/hmdfs_dentryfile.c:1015-1019 | clearing the bits of one extent keeps the partition |
| `DentryGroup.RemovedOneLess` | hmdfs-bak/hmdfs_dentryfile.c:1015-1019 | it removes exactly that entry and changes no other |
| `DentryIndex.PathMember` | hmdfs-bak/hmdfs_dentryfile.c:703-742 | the groups a search visits are exactly those where its hash may be placed, one bucket a level |
| `DentryIndex.FoldIff` | hmdfs-bak/hmdfs.h:320-328 | two names fold alike if and only if they are of one length and at every place have the same byte or the two cases of one letter of Latin-1 |
| `DentryIndex.FindCorrect` | hmdfs-bak/hmdfs_dentryfile.c:744-777 | lookup succeeds if and only if a matching entry is stored anywhere; an exact match at any level beats a case-folded one |
| `DentryIndex.RemoveCorrect` | hmdfs-bak/hmdfs_dentryfile.c:999-1028 | removing a live record keeps the invariant and takes exactly its entry out of the directory |
| `DentryIndex.DeleteCorrect` | hmdfs-bak/hmdfs_dentryfile.c:999-1028 | deletion removes exactly the one entry that lookup reports, or nothing; the file never shrinks |
| `DentryIndex.InsertCorrect` | hmdfs-bak/hmdfs_dentryfile.c:898-931 | writing into the first free run of a group on the path keeps the invariant and adds exactly one entry |
| `DentryIndex.GrowCorrect` | hmdfs-bak/hmdfs_dentryfile.c:882-896 | growing adds one whole empty level and changes nothing else |
| `DentryIndex.NewLevelHasRoom` | hmdfs-bak/hmdfs_dentryfile.c:882-920 | a level just added has room, so one insertion adds at most one level |
| `DentryIndex.FirstRoomComplete` | hmdfs-bak/hmdfs_dentryfile.c:871-931 | no group is chosen if and only if every bucket on the path is full |
| `DentryIndex.FirstRoomEarliest` | hmdfs-bak/hmdfs_dentryfile.c:882-931 | the group chosen is the first with room: every bucket of a lower level is full, and so is the other group of its bucket if that comes first |
| `DentryIndex.CreateCorrect` | hmdfs-bak/hmdfs_dentryfile.c:861-936 | insertion adds exactly one entry, or fails and changes nothing; it fails if and only if all buckets on the path are full and the store refuses another level; depth grows by one exactly when all are full and it succeeds |
| `DentryFile.GroupBuffer.UpdateDentry` | hmdfs-bak/hmdfs_dentryfile.c:779-822 | the slot loop yields the inserted group |
| `DentryFile.GroupBuffer.ClearExtent` | hmdfs-bak/hmdfs_dentryfile.c:1015-1019 | the clearing loop yields the group without the name |
| `DentryFile.FindInBlock` | hmdfs-bak/hmdfs_dentryfile.c:662-701 | the skipping walk finds the first exact hit of the whole group, and the first case-folded one unless one is known already |
| `DentryFile.DentryFile.InLevel` | hmdfs-bak/hmdfs_dentryfile.c:703-742 | searching a level reports the first exact hit in its bucket, else the earliest case-folded one of this or a lower level |
| `DentryFile.DentryFile.FindDentry` | hmdfs-bak/hmdfs_dentryfile.c:744-777 | the loop over levels computes the search on the whole path |
| `DentryFile.DentryFile.DeleteDentry` | hmdfs-bak/hmdfs_dentryfile.c:999-1028 | the file becomes the one with the found entry removed, invariant kept |
| `DentryFile.DentryFile.AddInBucket` | hmdfs-bak/hmdfs_dentryfile.c:898-931 | the first group of the bucket with room takes the name, else nothing changes |
| `DentryFile.DentryFile.CreateDentry` | hmdfs-bak/hmdfs_dentryfile.c:861-936 | the level loop with growth yields the file with the name stored, or reports no space, invariant kept |
| `DentryRuns.StepRefines` | hmdfs-bak/hmdfs_dentryfile.c:531-1028 | one create, delete, lookup, rename or listing on the file is the same operation on a multiset of entries, with the same outcome, and adds at most one level; a listing is complete if and only if the file has fewer than 2^31 groups or no entry |
| `DentryRuns.RunRefines` | hmdfs-bak/hmdfs_dentryfile.c:531-1324 | every sequence of these operations from an empty file, with every outcome, is a run of a multiset of entries; listings may come out empty only if the store admits 2^31 groups |
| `DentryRuns.DeleteUnique` | hmdfs-bak/hmdfs_dentryfile.c:999-1028 | in a directory of distinct names deletion removes all that matches, and names stay distinct |
| `DentryRuns.RenameCorrect` | hmdfs-bak/hmdfs_dentryfile.c:1304-1324 | exact contents after a rename; the new name survives if and only if the two names differ for the index |
| `DentryRuns.RenameDentry` | hmdfs-bak/hmdfs_dentryfile.c:1304-1324 | the three calls compute that rename, for one file and for two |
| `DentryRuns.RenameAcross` | hmdfs-bak/hmdfs_dentryfile.c:1304-1324 | exact contents of both files after a rename from one to the other |
| `NameHash.HashFolds` | hmdfs-bak/hmdfs_dentryfile.c:29-110 | names that differ only in case hash alike in case-insensitive mode |
| `NameHash.FillWords` | hmdfs-bak/hmdfs_dentryfile.c:29-58 | the loops over bytes and padding leave in each of the four words exactly its own bytes mixed into the padding |
| `NameHash.HmdfsDentryHash` | hmdfs-bak/hmdfs_dentryfile.c:78-106 | the loop over chunks of sixteen bytes computes the hash that the index theorems are applied to |
| `NameHash.GroupsFillBlocks` | hmdfs-bak/hmdfs_dentryfile.h:52-62 | 80 slots of the plain and 60 of the cloud record fill a group of 4096 bytes exactly |
| `NameHash.IndexConfigValid` | hmdfs-bak/hmdfs_dentryfile_cloud.h:14-20 | the plain and the cloud index with the real hash meet what the index theorems ask, and every name of up to 255 bytes fits a group |
| `Readdir.PosRoundTrip` | hmdfs-bak/file_remote.c:885-895 | over the whole bit fields, device, group and slot are decoded as they were packed if and only if the device has at most 15 bits and the group at most 38 |
| `Readdir.ReadFrom` | hmdfs-bak/file_remote.c:897-977 | one call emits the items ahead of the position in order, as many as fit, and leaves the position at the first one refused; group numbers are cut to int, and an unreadable group ends it |
| `Readdir.IterateRemote` | hmdfs-bak/file_remote.c:989-1023 | the call restarts, resumes or ends by the sign and value of the position; without a peer or a file it emits nothing and ends |
| `Readdir.DeviceBack` | hmdfs-bak/file_remote.c:903-907 | whatever the device id, a position keeps its low 16 bits, and group and slot exactly |
| `Readdir.ItemsAreListing` | hmdfs-bak/file_remote.c:923-965 | the items are the directory's entries, each once, in (group, slot) order |
| `Readdir.TypesOfModes` | hmdfs-bak/file_remote.c:947-957 | the type shown for every mode: directory, regular file, link, or unknown for all others |
| `Readdir.SessionDeliversListing` | hmdfs-bak/file_remote.c:989-1023 | below those bounds the resumed calls deliver the listing without loss or repetition for every pattern of buffer sizes, and end exactly when it is exhausted |
| `Readdir.TooManyGroups` | hmdfs-bak/file_remote.c:923-930 | with 2^31 groups or more, a negative number as an int, nothing is listed from any position |
| `Readdir.ResumableIff` | hmdfs-bak/file_remote.c:885-927 | for every file an index can have: the calls deliver the listing for every pattern of buffer sizes if and only if the directory is empty, or the file has fewer than 2^31 groups and the device id is no multiple of 2^16 |
| `Readdir.NeverEnds` | hmdfs-bak/file_remote.c:989-1023 | for a multiple of 2^16 and buffers smaller than the directory, every call delivers the first names again and the listing never ends |
| `StashFile.SeekData` | hmdfs-bak/stash.c:1392-1396 | the next data position: at or behind the start, block aligned when it skips, with no data before it |
| `StashFile.CopyBlock` | hmdfs-bak/stash.c:1343-1373 | copying one block extends the merge over it and advances to the next block or the end |
| `StashFile.CopySrcToDst` | hmdfs-bak/stash.c:1375-1429 | the loop ends; all data is at its offset and every hole of the destination untouched; it fails if and only if fewer writes succeed than there are data blocks, and then exactly the data blocks in front of the one that failed, as many as writes succeeded, are in place and nothing else has changed |
| `StashFile.StashedPagesHeld` | hmdfs-bak/stash.c:2050-2082 | after any page writes, in any order, the data part holds exactly the latest bytes of those pages |
| `StashFile.ParseHeadBody` | hmdfs-bak/stash.c:250-271 | a packed head reads back field by field |
| `StashFile.MetadataKeepsPages` | hmdfs-bak/stash.c:273-321 | writing head and path leaves the data part alone |
| `StashFile.MetadataReadBack` | hmdfs-bak/stash.c:273-324 | pages are lost in flushing if and only if there is no path; otherwise the head that is written passes every check of restoring, and yields path, page count and data offset |
| `StashFile.AcceptedHead` | hmdfs-bak/stash.c:1084-1166 | a head that is accepted has the magic number, the inode asked for, the size of the file and the checksum of all before it |
| `StashFile.OtherInodeRefused` | hmdfs-bak/stash.c:1113-1119 | a head written for one inode is refused for every other |
| `StashFile.StashRoundTrip` | hmdfs-bak/stash.c:1375-1429 | stash and flush lose everything if and only if there is no path; otherwise replaying overlays exactly the stashed pages on any destination |
| `StashRestore.RestoreFile` | hmdfs-bak/stash.c:1461-1515 | success if and only if the inode, head and destination are in order and either the destination is another inode or all was written and synced; whatever the result, a destination that was opened and is the right inode holds exactly the data blocks that could be written, at their offsets, and is otherwise unchanged, and any other destination is untouched; the stash file is kept if and only if the peer went offline under it |
| `StashRestore.RestoreFiles` | hmdfs-bak/stash.c:1623-1670 | every file handled is explained by its result (all data in place after a success, exactly what could be written after a failure), counted exactly once as succeeded, failed or kept, and deleted unless it could not be opened or was cut off; the loop stops at the first one cut off |
| `StashRestore.StashAndRestore` | hmdfs-bak/stash.c:2050-2082 | the whole life of a stash file: it succeeds if and only if there is a path, inode and destination are in order, and as many writes succeed as distinct pages were stashed (or the destination is another inode); then every page is in place and nothing else changed; after a failure exactly the first pages, as many as could be written, hold their latest bytes, and every other byte is the one that was there |
| `StashProtocol.StepInv` | hmdfs-bak/stash.c:724-908 | every step keeps the invariant |
| `StashProtocol.ExecutionInv` | hmdfs-bak/stash.c:724-908 | it holds in every state of every run, stash files of earlier boots included |
| `StashProtocol.ListsBalance` | hmdfs-bak/stash.c:773-880 | in every state: a STASHING inode is on the list of inodes opened for writing; the count is its opens plus one while it is prepared or stashed; stashed_inode_nr is the number of tracked inodes, each RESTORING, held and with a stash file |
| `StashProtocol.HoldsBalance` | hmdfs-bak/stash.c:724-908 | between callbacks the references are one for each STASHING and one for each tracked inode |
| `StashProtocol.StashLeavesNone` | hmdfs-bak/stash.c:829-878 | when do_stash ends no inode is STASHING |
| `StashRuns.PrepareTakesAll` | hmdfs-bak/stash.c:724-771 | in every run, when offline_prepare ends, every inode that was opened for writing and NONE or STASHING when it began is STASHING |
| `StashRuns.StashTakesAll` | hmdfs-bak/stash.c:829-878 | in every run, between the beginning and the end of do_stash an attempt is made on every inode that was opened for writing and NONE or STASHING; it ends tracked, RESTORING and with a stash file if the attempt succeeded, and was released as NONE if not |
| `StashRuns.TrackedUntilReset` | hmdfs-bak/stash.c:773-827 | an inode that was stashed or rebuilt is held, RESTORING and has its stash file in every state until it is reset or the peer is deleted |
| `StashRuns.RestoreResets` | hmdfs-bak/stash.c:880-908 | every inode that a restore resets is NONE, untracked and at rest before the restore ends |
| `StashRuns.OpensCounted` | hmdfs-bak/file_remote.c:297-331 | in every state wr_opened_cnt is the number of writable opens less closes so far, and one more while the offline work has the inode |
| `StashProtocol.DeletedPeerHoldsNothing` | hmdfs-bak/stash.c:1966-2007 | from the deletion of the peer until an inode is next rebuilt, prepared or stashed, no reference, tracked inode or extra count is left in any state |
| `StashProtocol.EvictionIsSafe` | hmdfs-bak/file_remote.c:297-331 | an inode without opens and references is on no list |
| `RebuildHandshake.StepInv` | hmdfs-bak/stash.c:2170-2187 | the counter is the number of threads between increment and decrement, and after the wait none of them rebuilds |
| `RebuildHandshake.RebuildsIff` | hmdfs-bak/stash.c:2170-2187 | in every run an inode goes on to rebuild at its first and at its second test if and only if the flag was set and has not been cleared yet |
| `RebuildHandshake.ListIsFinal` | hmdfs-bak/stash.c:1888-1901 | in every interleaving, once the wait has returned nothing is ever added to the list again |
| `RebuildHandshake.WaitCanReturn` | hmdfs-bak/stash.c:1888-1901 | from every state in which the flag is cleared, the run can go on until the wait returns |
| `SyncFs.StepInv` | hmdfs-bak/main.c:433-585 | every step of any caller or callback keeps queues, counters, coverage and outcomes in order |
| `SyncFs.ExecutionInv` | hmdfs-bak/main.c:433-585 | so does every interleaving, with callbacks split between their test of remote_ret and their store |
| `SyncFs.Serialised` | hmdfs-bak/main.c:447-460 | at most one caller executes; callers wait only while one does; each waiter is queued once and completed exactly once |
| `SyncFs.AbortedIsCovered` | hmdfs-bak/main.c:557-576 | for a caller released by need_abort, the run contains a sync that began after it arrived and ended before it was released |
| `SyncFsRuns.LastArrivalExecutes` | hmdfs-bak/main.c:564-576 | in every run an executor hands over to the caller that arrived last of all that wait, and the others become pending |
| `SyncFs.StepAccounting` | hmdfs-bak/main.c:469-555 | at every step wait_count is requests minus answers of the current version, short of the one not yet counted; stale answers change nothing |
| `SyncFs.TestBalanced` | hmdfs-bak/hmdfs_client.c:995-1006 | an answer of the current version stays outstanding until its store; one of an older version only disappears |
| `SyncFsRuns.ResultOfRound` | hmdfs-bak/main.c:526-555 | the executor gets 0 if and only if its wait was not interrupted, its last send succeeded, every answer succeeded, and every failed send was stored while some callback was between test and store |
| `SyncFsRuns.ResultCode` | hmdfs-bak/main.c:526-555 | a result other than 0 is -EINTR after an interruption, else the code of a failed last send, else a code that a failed send or an answer of the same round reported |
| `SyncFsRuns.ReturnedResult` | hmdfs-bak/main.c:543-585 | so for every caller that executed and returned; 0 means that every request was answered, with success; its round succeeded in full if and only if, besides, no send failed |
| `SyncFsRuns.ReleasedResult` | hmdfs-bak/main.c:557-562 | every released caller was released by the executor of its covering sync; that sync was clean if and only if the executor was draining with 0, and succeeded in full if and only if, besides, no send of it failed |
| `SyncFsRuns.LostInWindow` | hmdfs-bak/hmdfs_client.c:1005-1006 | a failed send of a round that reports 0 lies between the test, which found 0, and the store of one successful answer |
| `SyncFsRuns.LostFailure` | hmdfs-bak/main.c:526-534 | every run in which a caller is about to begin can go on so that one of its sends fails, with any code, and it gets 0 |
| `SyncFsRuns.NoDeadlock` | hmdfs-bak/main.c:543-576 | while someone executes, a step of it or an answer is possible, without any signal, that brings the end nearer |
| `SyncFsRuns.CanComplete` | hmdfs-bak/main.c:543-585 | from every state of every run, without arrivals and signals, the run can go on until every caller has its result |
| `WritePage.ExecutionOk` | hmdfs-bak/hmdfs_client.c:167-355 | in every run each context has one holder among writer, requests and retry work and nothing given back, or no holder and page lock, writeback, semaphore, task reference and memory each given back once if taken |
| `WritePage.EveryStepLeads` | hmdfs-bak/hmdfs_client.c:278-355 | in every run a step finishes its page write if and only if it refused or skipped it, got a successful response, got a failed one that is not redone, or settled it by stashing it locally or failing without a retry; a sent attempt leaves it with the request and a failed one with an offline retry with the retry work |
| `WritePage.TakenIs` | hmdfs-bak/file_remote.c:697-779 | what a page write has taken, in every state from its start on: the semaphore unless it is synchronous, writeback and memory if it was admitted, its task from its first attempt on |
| `WritePage.NoUseAfterFree` | hmdfs-bak/stash.c:2084-2107 | no step of any run works on a freed context |
| `WritePage.FinishedExactlyOnce` | hmdfs-bak/hmdfs_client.c:167-215 | a finished context is never touched again |
| `WritePage.QuiescentMeansFinished` | hmdfs-bak/file_remote.c:722-779 | when nothing is under way every page write has given back exactly what it took |
| `ConflictName.RenameConflictingFile` | hmdfs-bak/file_merge.c:161-200 | the in-place edit inserts the suffix and the device before the last dot |
| `ConflictName.CheckFilename` | hmdfs-bak/inode_merge.c:303-343 | the class of a name by its ending |
| `ConflictName.ConfNameTransReg` | hmdfs-bak/inode_merge.c:266-301 | original name and device are read back |
| `ConflictName.MangleFileRoundTrip` | hmdfs-bak/file_merge.c:161-200 | for every name and device the original comes back; the mangled name is never plain, and is a file name if and only if the extension is no directory mark |
| `ConflictName.PlainRoundTrip` | hmdfs-bak/inode_merge.c:254-301 | for plain names file and directory mangling both decode completely |
| `ConflictName.MangleInjective` | hmdfs-bak/file_merge.c:161-200 | different (name, device) pairs get different names |
| `ConflictName.ConflictExamples` | hmdfs-bak/file_merge.c:161-207 | the two suffixes, as they are |
| `ConflictName.DottedConflict` | hmdfs-bak/file_merge.c:161-200 | the device number goes in front of the extension |
| `ConflictName.GuardFits` | hmdfs-bak/file_merge.c:253-266 | the length test leaves room for every admitted name if and only if the device id is below 10000 |
| `NameTree.CompareOrders` | hmdfs-bak/file_merge.c:78-84 | length first, then strncmp, is a strict total order on names |
| `NameTree.LinkedCorrect` | hmdfs-bak/file_merge.c:73-102 | linking a new name where the descent ends keeps the tree sorted and adds exactly that name |
| `NameTree.TurnedCorrect` | hmdfs-bak/file_merge.c:99-100 | whatever rotations rebalancing makes, the tree stays sorted and holds the same |
| `NameTree.ErasedCorrect` | hmdfs-bak/file_merge.c:128-159 | erasing a name, by the other child or the successor, keeps the tree sorted and removes exactly that name |
| `MergeListing.MergeTree.Insert` | hmdfs-bak/file_merge.c:66-103 | the search in the ordered tree finds the type of an equal name if there is one, and otherwise the tree gains exactly the new name, whatever rotations follow |
| `MergeListing.MergeTree.Delete` | hmdfs-bak/file_merge.c:128-159 | the tree loses exactly the name |
| `MergeListing.MergeTree.Present` | hmdfs-bak/file_merge.c:209-287 | insert, rename, emit and undo on the tree show what the actor shows on a map and leave its tree; the iteration goes on if and only if the name is "." or "..", a directory shown already, or accepted under a name that fits, and something is shown exactly in the last case |
| `MergeListing.RenderInjective` | hmdfs-bak/file_merge.c:161-207 | plain, device and directory names never collide |
| `MergeListing.ListingCorrect` | hmdfs-bak/file_merge.c:209-287 | over every sequence of entries and refusals the emitted names are pairwise distinct, a directory name is shown once, and every item is an accepted entry |
| `MergeListing.EachOnce` | hmdfs-bak/file_merge.c:209-287 | every accepted file that can be shown has exactly one item in the listing; every accepted directory name has one |
| `MergeListing.RefusalsLeaveNoTrace` | hmdfs-bak/file_merge.c:268-287 | a listing shows what it would show if the refused entries had never been presented |
| `MergeSession.GoesOnIff` | hmdfs-bak/file_merge.c:222-287 | the iteration goes on after an entry if and only if it is "." or "..", a directory shown already, or accepted under a name that fits; an item is shown exactly in the last case |
| `MergeSession.DotsAreHidden` | hmdfs-bak/file_merge.c:222-228 | "." and ".." show nothing, change nothing and let the iteration go on |
| `MergeSession.CallSplits` | hmdfs-bak/file_merge.c:268-287 | a call that stops at the first refusal shows a beginning of what a single call would show, and exactly the rest is shown from the entry it stopped at; it stops short of its buffer only when nothing is left to show |
| `MergeSession.SessionShowsWhole` | hmdfs-bak/file_merge.c:268-287 | for every pattern of buffers, calls that each begin with the entry refused by the one before show together the items of a single call in order, as many as the buffers take, none twice and none skipped |
| `MergeSession.EndReachedIff` | hmdfs-bak/file_merge.c:233-266 | a call with room for everything reaches the last entry if and only if every name it needs fits |
| `MergeSession.SessionIsListing` | hmdfs-bak/file_merge.c:209-287 | then the calls of a session whose buffers suffice show exactly the listing of all entries |
| `Comrades.WorkersAre` | hmdfs-bak/inode_merge.c:506-528 | no device is asked twice, and a mangled file name asks only its device |
| `Comrades.ConflictNameAsksItsDevice` | hmdfs-bak/inode_merge.c:465-528 | looking up the name shown for a conflicting file asks exactly the device that holds it, for the real name |
| `MergeLookup.PlainAsksEveryone` | hmdfs-bak/inode_merge.c:465-528 | a plain name is asked of the local device and every peer, each once, under that name and with its kind open |
| `MergeLookup.ConflictDirAsksEveryone` | hmdfs-bak/inode_merge.c:465-528 | the name of a directory in conflict is asked of the same devices, under its real name and for directories only |
| `Comrades.ArriveInv` | hmdfs-bak/inode_merge.c:376-433 | one more answer keeps the list: unique devices, local first, one kind, one file at most, no answer lost |
| `Comrades.AfterInv` | hmdfs-bak/inode_merge.c:376-433 | so does every order of arrival |
| `Comrades.LookupOutcome` | hmdfs-bak/inode_merge.c:395-433 | when all workers are done the list is non-empty if and only if some answer fits the name; a directory has all its devices, a file exactly one |
| `Comrades.WaitEndsRightly` | hmdfs-bak/inode_merge.c:530-534 | work_count is the number of unfinished workers, and a wait that ends with an empty list ends after all of them, with no fitting answer anywhere |
| `Comrades.OrderDoesNotDecide` | hmdfs-bak/inode_merge.c:530-534 | no order of arrival changes whether the lookup succeeds |
| `MergeLookup.PlainLookup` | hmdfs-bak/inode_merge.c:480-543 | for every order of arrival a plain name is found if and only if some device holds it, and every comrade is a device that does; a directory has all that hold it, a file one |
| `MergeLookup.ConflictDirLookup` | hmdfs-bak/inode_merge.c:480-543 | the name of a directory in conflict is found on exactly the devices that hold the directory |
| `MergeLookup.ConflictFileLookup` | hmdfs-bak/inode_merge.c:480-543 | the name of a file in conflict is found on its own device and no other |
| `MergeLookup.ShownIsFound` | hmdfs-bak/inode_merge.c:480-543 | whatever name the merged listing shows, its lookup asks the right devices for the real name and finds it on devices that hold it |
| `Comrades.KindIff` | hmdfs-bak/inode_merge.c:376-393 | the kind of a plain name is independent of the order of arrival if and only if all devices that have it have the same kind |
| `Comrades.MergeInfo.LinkComrade` | hmdfs-bak/inode_merge.c:182-201 | the loop links one comrade a device, the local one in front |
| `Comrades.MergeInfo.IsValidComrade` | hmdfs-bak/inode_merge.c:376-393 | the verdict on an answer and the kind it leaves |
| `Comrades.MergeInfo.WorkFunc` | hmdfs-bak/inode_merge.c:395-433 | one worker's answer on the shared state; it wakes the waiter whenever the wait becomes over, and only then |
| `Comrades.MergeInfo.StartWorkers` | hmdfs-bak/inode_merge.c:435-528 | the devices asked, and one count for each |
| `Freshness.CacheFreshIff` | hmdfs-bak/hmdfs_server.c:909-931 | every directory cache that need not be rebuilt equals the directory, in every run, if and only if change times lag by no more than the precision |
| `Freshness.DirRunInv` | hmdfs-bak/hmdfs_server.c:1472-1544 | taking the header before the entries, which are read one by one, keeps every later change visible |
| `Freshness.RemoteInode.Open` | hmdfs-bak/file_remote.c:51-155 | which pages, size and times an open leaves, keep_cache included |
| `Freshness.StaleInodeRefused` | hmdfs-bak/file_remote.c:51-155 | an open is refused if and only if the server has another inode under the path, and then nothing changes |
| `Freshness.PagesKeptIff` | hmdfs-bak/file_remote.c:51-155 | pages survive an open if and only if size and change time are the server's and either the write-cache timer runs and has not expired or the stable times are equal and not 0; the timer survives with them |
| `Freshness.OpenIsCurrent` | hmdfs-bak/file_remote.c:51-155 | after every open of every run the client has the server's size and change time, and the stable time they allow |
| `Freshness.FreshIff` | hmdfs-bak/hmdfs_server.c:451-491 | an open at a given time of a file changed at a given time leaves only pages equal to the server's, in every run, if and only if the open is before the change time or at least the precision after it |
| `FidTable.StepBalanced` | hmdfs-bak/hmdfs_server.c:343-390 | every single get, put, insertion, removal and closing of every handler keeps the account: references are one for each slot and one for each put still owed, up to removals gone astray |
| `FidTable.Accounts` | hmdfs-bak/hmdfs_server.c:537-595 | so does every interleaving of opens, releases and offline events |
| `FidTable.ConservedIff` | hmdfs-bak/hmdfs_server.c:574-590 | in every state the references of a file are exactly its ids plus the puts that handlers owe if and only if no failing open has found its id already removed |
| `FidTable.PutsAreSafe` | hmdfs-bak/hmdfs_server.c:193-228 | until that happens to a file, no put of it, in a handler or in the offline loop, is one too many |
| `FidTable.MissMeansTaken` | hmdfs-bak/hmdfs_server.c:788-823 | it happens only because a release removed the id before the open's response reached the client |
| `FidTable.PoliteConserves` | hmdfs-bak/hmdfs_server.c:788-823 | with a client that releases only ids whose response it has, whether or not the server has returned from sending it, references always add up |
| `FidTable.RudeRelease` | hmdfs-bak/hmdfs_server.c:574-590 | every run can go on so that a release overtakes a failing open and the file ends with one reference less and the same ids |
| `FidTable.ResolvesIff` | hmdfs-bak/hmdfs_server.c:421-449 | an issued fid resolves after further offline events if and only if its id is in the table and their number is a multiple of 2^15; before ids wrap, only in its own epoch and to its own file |
| `FidTable.FidsAcrossOfflines` | hmdfs-bak/hmdfs_server.c:193-228 | in every run a fid issued at one step resolves at a later one if and only if its id is in the table and the offline events in between are a multiple of 2^15 |
| `FidTable.BootsDiffer` | hmdfs-bak/main.c:841-854 | versions of different boot cookies never agree, however many offline events there were |
| `Throttle.ShareBelowWhole` | hmdfs-bak/client_writeback.c:138-152 | a scaled share never exceeds the whole |
| `Throttle.DirtyControl.InitDirtyLimit` | hmdfs-bak/client_writeback.c:171-202 | the thresholds a writer starts with |
| `Throttle.DirtyControl.UpdateDirtyLimit` | hmdfs-bak/client_writeback.c:204-250 | the thresholds for a measured bandwidth, and what is saved of them |
| `Throttle.AmpleIsConfigured` | hmdfs-bak/client_writeback.c:171-250 | bandwidth for the configured limit gives the configured thresholds; less gives its own as the whole |
| `Throttle.ScaledMonotone` | hmdfs-bak/client_writeback.c:204-250 | more bandwidth never lowers a threshold |
| `Throttle.ScaledProportional` | hmdfs-bak/client_writeback.c:138-250 | scaled thresholds keep the configured proportions up to the rounding of a 1024th and one page |
| `Throttle.InitProportional` | hmdfs-bak/client_writeback.c:171-202 | so do the thresholds a writer starts with |
| `Throttle.RunOrdered` | hmdfs-bak/client_writeback.c:154-250 | every run of initialisations, measurements and reconfigurations keeps 1 <= file_bg <= file <= fs and 1 <= fs_bg <= fs |
| `Throttle.RunBelowIff` | hmdfs-bak/client_writeback.c:154-250 | no threshold computed after any run exceeds its configured value if and only if fs <= 1024*(fs_bg+1), fs <= 1024*(file+1), file <= 1024*(file_bg+1), and file < 1024*(file_bg+1) where fs > 1024*file |
| `PathCheck.ComponentIsPosition` | hmdfs-bak/hmdfs_server.c:63-77 | a component ".." among those between slashes is the same as a position where one starts and ends |
| `PathCheck.PathContainDotdot` | hmdfs-bak/hmdfs_server.c:35-77 | the scanner answers true if and only if some component is ".." |
| `PathCheck.SymnameIsAllowed` | hmdfs-bak/inode_local.c:751-771 | a link target is allowed if and only if it is shorter than PATH_MAX and has no component "..": the two tests agree |

## Left out

- I/O errors and short reads when a dentry file is searched or changed, and its byte-range locks; two users of one dentry file at the same time.
- Attributes and the header of a dentry file beyond those in a record; updating an entry in place (update_inode_to_dentry); the cloud file's record fields (only its group size is an instance).
- NameTree: colours and the choice of rotations; the theorems hold for any rotations.  Nodes are values, not linked records.
- MergeSession: the lower entries are one sequence in the order in which they are presented; hopping between devices in hmdfs_iterate_merge is not modelled.
- Merged operations other than lookup and listing.
- ConflictName.CheckFilename: a comparison that would start before the name is taken as no match, where the code compares memory in front of the buffer.
- ConflictName.RenameConflictingFile: the name is a value, not a buffer edited in place; that it fits is `ConflictName.GuardFits`.
- StashProtocol: flushing of dirty pages, failures of single file-system calls, and the statistics; the steps are values of a state machine, not calls on shared objects.
- StashRestore.RestoreFile: what is said of the destination after a failure is said of the file as the client has written it; that the client then drops cached pages is not modelled.
- StashRestore.StashAndRestore: writes to the local stash file, its fsync and its link succeed.
- StashFile.CopySrcToDst: SEEK_DATA is block granular and reads before the end of the file are full; other seek and read errors are not modelled.
- SyncFs: which peers are online or dirty is left to the choice of events; each request gets one callback.
- WritePage: the contents of pages, their dirty and error flags, and the conditions for a retry, which any event may choose freely.
- Freshness: the write-cache timer in runs, and writes by the client.
- FidTable: hmdfs_server_atomic_open, the handlers that only get and put a file around a read or a write, requests that start while the offline handler runs, and conservation of references after ids have wrapped.
- Throttle: overflow of unsigned long, the rate limit, and the bandwidth estimate, which is an input.
- crc32 is an arbitrary function, so that detecting damaged heads is not claimed.
- PathCheck.SymnameIsAllowed: the target is the text before its terminating NUL.
- The agent (hmdfs_agent.c), the Horcrux fuzzing scripts, the transport, credentials, xattrs, statfs, mount options, tracing and VFS plumbing.
