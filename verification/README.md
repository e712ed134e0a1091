# nextufs, verified

nextufs writes UFS filesystems inside raw, VDI and QCOW2 images. This project models its storage logic in
Dafny and proves it correct: the cylinder-group allocator with its derived summaries, files with
fragments and indirect blocks, the QCOW2 and VDI backends, the undo log with the clean/dirty life cycle,
the duplicate-claim accounting of fsck, the directory tree, and directory records.

`dafny verify dfyconfig.toml` checks everything. The files fall into these groups:

- Groups and counts: `GroupSpec` defines every counter of a group as a sum over its bitmap. `Runs`,
  `FragAcct`, `CylinderGroup`, `GroupBuild` and `GroupScan` are the allocator, the resizer, the formatter
  and fsck's recount, all proved against that one definition. `Volume` is the allocator over all groups,
  and `VolumeBuild` is where a volume's counts start (formatter) and how they grow (resizer).
- Files: `Ledger` says who holds each fragment. `BlockTree`, `IndirectBlocks` and `Pruning` handle
  indirect trees; `Files`, `Resolve`, `FileMutate`, `FileResize`, `FileShrink`, `FileIo` and `FileFree`
  handle whole files, `FileNeeds` says what growing one takes, and `FileSystem` has all files of a volume.
- QCOW2: `Qcow2Map` and `Qcow2State` hold the image and its invariant, `Qcow2Steps` and `Qcow2Link` the
  single updates, `Qcow2Needs` how many clusters a write takes and `Qcow2Room` when an image can grow by
  them, `Qcow2` the driver, `Qcow2Open` and `Qcow2Validate` what the next open demands.
- Writable images: `UndoLog` and `Lifecycle`. VDI: `Vdi`. fsck claims: `Claims`.
- Names: `Namespace` is the directory tree and `DeepTrees` an example of it. `DirRecords`, `DirRemoval`,
  `Directories` and `DirExamples` are the records of one directory, and `DirFolders` connects the two.
  `Superblock` is open-time validation and inode placement.
- `Scale`, `Options`, `Faults` and `Runs` hold shared arithmetic, byte strings and small types.

Operations that the source performs in place are methods on classes (`Volume`, `Node`, `Qcow`, `Image`,
`Session`, `Vdi`, `Fsck`, `Tree`, `Directory`, `Table`, `FileTable`), specified by functions and relations on values.
Where I/O can fail, the environment is an input: a sequence of answers (`faults`, `answers`), any of which
may be a failure, and a clock `tick` that counts the questions asked. In `Lifecycle` and `Vdi`, and for the
header bit of `Qcow2`, a failed write may also have landed. Where no question of a call failed, its result
is stated in terms of the old state.

## Model

| member | source | states |
|---|---|---|
| `GroupSpec.EditKeeps` | src/core/alloc.c:210-246 | Rewriting one block and moving every counter by that block's change keeps all counters equal to what the bitmap defines: whole blocks, loose fragments, runs by length, and blocks by cylinder and rotational position. |
| `GroupSpec.DiskPositions` | src/core/alloc.c:358-372 | The cylinder and rotational position used for the tables are those of the disk: the first sector of a block lies in that cylinder, at that place of its track, and the position is the eighth of the revolution in which it comes round. |
| `CylinderGroup.AllocateInGroup` | src/core/alloc.c:248-387 | Fails with ENOSPC exactly when no block holds a free run of the wanted length; a grant was free and inside one block, is the first run that serves, and a whole block is split only if no partial block has such a run; every counter stays exact. |
| `CylinderGroup.ExtendRun` | src/core/alloc.c:418-480 | Growing a used run in place fails with ENOSPC exactly when it would leave its block or meet a used fragment; otherwise exactly the wanted fragments become used and every counter stays exact. |
| `CylinderGroup.FreeRunInGroup` | src/core/alloc.c:482-569 | Freeing fails exactly when the run is empty or some fragment of it is already free; otherwise exactly those fragments become free, every counter stays exact, and the returned deltas are the changes of the two totals. |
| `FragAcct.Account` | src/fsck/frag_support.c:103-130 | The table-driven mask scan adds, for every length, the number of maximal free runs of that length, which is what the allocator's own run loop counts. |
| `FragAcct.TableExact` | src/fsck/frag_support.c:12-102 | The presence tables and the shifted masks recognise a run of a given length exactly when the block has one. |
| `GroupScan.Recount` | src/fsck/pass5.c:103-142 | From a map of claimed fragments of any length, a partial last block included, pass 5 builds a group that satisfies the allocator's invariant and whose free bits are the unclaimed fragments. |
| `GroupScan.RecountAgrees` | src/fsck/pass5.c:103-167 | If a consistent group's used fragments are the claimed ones, the recount equals it in the bitmap and in every summary, so pass 5 has nothing to correct. |
| `GroupScan.InitGroup` | src/mkimg_format/format_fsinit.c:21-123 | Over a buffer with stale bits, `initcg` produces a consistent group whose free fragments are those outside the metadata (and outside everything below it in group zero). |
| `GroupBuild.ExpandLastGroup` | src/commands/resize.c:641-689 | The old last group grows to its new length with exactly the added fragments freed; counters stay exact and the deltas for the superblock totals are the changes of the group's totals. |
| `GroupBuild.ReserveRange` | src/commands/resize.c:355-419 | The summary extension is taken from group zero exactly when all of it is free; counters stay exact and the deltas are the changes of the totals. |
| `GroupBuild.BuildGroup` | src/commands/resize.c:583-639 | A new group fails exactly when it cannot hold its metadata; otherwise it is consistent, everything but the metadata is free, and the returned counts are its own. |
| `Volume.Volume.AllocateFrags` | src/core/alloc.c:389-408 | With the reserve respected, allocation over all groups fails with ENOSPC exactly when no group has a free run of that length inside one block; a failed call changes nothing; a grant takes exactly its fragments, from the first group with such a run, counted round from the preferred one, and there the first that serves; summary area and superblock totals stay the sums of the groups. |
| `Volume.Volume.ExtendRun` | src/core/alloc.c:418-480 | With the reserve respected, growing a used run fails with ENOSPC exactly when it would leave its block or group or meet a used fragment; on error nothing changes; otherwise exactly the fragments behind it are taken and the totals stay the sums. |
| `Volume.Volume.FreeRun` | src/core/alloc.c:482-569 | Fails, changing nothing, exactly when the run is empty or holds a free fragment; otherwise exactly the run becomes free and the totals stay the sums. |
| `VolumeBuild.InitGroups` | src/mkimg_format/format_fsinit.c:21-123 | The formatter's loop over the groups establishes the volume invariant: every group's counters are exact, the summary area repeats them, and the superblock totals are their sums. |
| `VolumeBuild.FirstBlock` | src/mkimg_format/format_fsinit.c:180-203 | The search of `alloc` ends at the lowest whole block, and finds none exactly when the group counts none, so its internal error is never reached. |
| `VolumeBuild.Table.InitDirectories` | src/mkimg_format/format_fsinit.c:125-157 | On a fresh volume both initial allocations succeed, at the first block of the data area and the one behind it, and the volume invariant holds afterwards. |
| `VolumeBuild.Table.Grow` | src/commands/resize.c:976-1078 | The result is the verdict of the checks in their order, with the exact condition of each failure; a failure changes nothing; success keeps the volume invariant for the new size, and fragment by fragment the free set is the old one plus the added space without new metadata and without the enlarged summary area. |
| `VolumeBuild.GrowCounts` | src/commands/resize.c:1004-1078 | Expanding, reserving and appending, with each step's deltas added to the totals, succeeds exactly when the summary extension is free after the expansion, and then yields the volume invariant. |
| `VolumeBuild.Table.Mount` | src/core/image.c:158-206 | The counts that the formatter and the resizer leave are those a mounted volume starts from. |
| `BlockTree.GraftGet` | src/core/alloc.c:681-762 | In a tree of any depth, placing a data block at an index changes what that index resolves to, and no other. |
| `BlockTree.PruneGet` | src/mutate/file_mutate.c:88-144 | In a pruned tree the blocks below `keep` resolve as before and the others are holes. |
| `IndirectBlocks.SetIndirect` | src/core/alloc.c:681-721 | On disk, setting entry `idx` below an index block leaves the old tree with that one entry replaced and the missing index blocks added; fragments are conserved, and nothing outside the tree and the free fragments is written. |
| `FileMutate.SetBlock` | src/core/alloc.c:722-762 | The same for a whole inode: block `b` reads as the new fragment, every other block as before, at every level; past the last level's reach it gives EFBIG. |
| `Resolve.ResolversAgree` | src/core/alloc.c:764-823 | On every disk, sound or not, the allocator's lookup and the reader's lookup give the same fragment or both fail. |
| `Resolve.ResolveExact` | src/core/image.c:946-1007 | On a sound inode the lookup through index blocks on disk returns the entry of the decoded tree. |
| `Pruning.PruneTree` | src/mutate/file_mutate.c:88-144 | Pruning keeps exactly the part of the tree below `keep`, releases exactly the data blocks at or beyond it and the index blocks that become empty, counts them, and writes nothing it does not own. |
| `FileMutate.GrowBlock` | src/mutate/file_mutate.c:27-86 | One block grows by extension, by moving to a new run, or from a hole: its kept bytes are the old ones, the rest is zero, the old run is given up, other blocks keep their bytes, and `blocks` follows what the file holds. It fails only past the reach of the last level, or when the volume is short of a run of a length that is asked for here; it succeeds whenever whole blocks for the run and the lacking index blocks are free and the reserve allows them. |
| `FileIo.Resize` | src/mutate/file_mutate.c:155-240 | A resized file holds its old prefix, padded with zeros, and no pointers past its end; fragments are conserved; `blocks` equals the sectors held; whatever neither belonged to the file nor was free is untouched. Shrinking cannot fail. With block sizes of the format EFBIG is answered exactly past INT32_MAX; any other error means that the volume, at that moment, is short of a run of a length that the growth asks for; growth succeeds whenever as many whole blocks are free as it needs runs and index blocks, each lacking index block counted once, and the reserve allows the fragments. |
| `FileIo.Write` | src/mutate/file_mutate.c:242-293 | A written file holds its old bytes with the range spliced in, through holes, tail extension and relocation, with the same conservation and frame, the same meaning of errors, and success whenever the volume affords what the written blocks and the old tail need. |
| `FileNeeds.NodesGraft` | src/core/alloc.c:681-762 | Storing one pointer in an indirect tree of any depth takes exactly the index blocks of its own path off every other path, so that the index blocks a range of blocks lacks are counted once. |
| `FileNeeds.NeedGrown` | src/mutate/file_mutate.c:242-293 | What a write needs splits into what the growth before it takes and what is still needed afterwards, for blocks and for fragments. |
| `FileResize.AlwaysAddressable` | src/mutate/file_mutate.c:20-25 | Three levels of indirect blocks of at least 1024 entries reach every size up to INT32_MAX. |
| `FileIo.Read` | src/core/image.c:1009-1064 | Reading a file at rest cannot fail and returns exactly the bytes asked for, cut at the end of file. |
| `FileIo.OtherFileKept` | src/mutate/file_mutate.c:155-293 | A step of one file, resize or write, leaves every other file's tree and contents as they were and still disjoint from it. |
| `FileSystem.StepAll` | src/mutate/file_mutate.c:155-293 | A step of one file on a volume of many: every other file keeps bytes and fragments, no fragment has two holders, and free plus owned fragments are conserved. |
| `FileSystem.FileTable.Run` | src/mutate/file_mutate.c:155-293 | Any sequence of resizes, writes and frees over all files, any of which may fail: every file has the contents that the successful operations on it make, fragments only move between files and the free map, and each keeps one holder. At every moment of the run an operation that the volume can afford succeeds, and one that fails changes nothing. |
| `FileFree.Free` | src/core/alloc.c:920-974 | Freeing a file's storage never fails, releases every fragment it held, and leaves an empty file. |
| `Qcow2.Qcow.Write` | src/core/qcow2.c:780-848 | On success the guest reads its old bytes with the range replaced, whether the touched tables and clusters were shared, zero or inherited from a shorter parent; the invariant the open-time validator demands is kept. A write inside the disk on a writable image that has not failed answers EIO exactly when some I/O of the call fails, EFBIG only if there is no room for the clusters that this range needs (one for every guest cluster that cannot be rewritten in place, one for every L2 table not its own) with their refcount metadata, and succeeds otherwise. Any error is latched, and a latched image refuses further writes unchanged. |
| `Qcow2.Qcow.Read` | src/core/qcow2.c:416-463 | Past the end a read gives EINVAL; inside the disk it gives EIO exactly when some I/O of the call fails and otherwise returns the guest bytes of the range. |
| `Qcow2.Qcow.EnsureRefcounts` | src/core/qcow2.c:627-686 | It terminates, and on success every cluster up to the wanted count is covered by a refcount block, the new blocks and a moved table included, the table is within its limit, and no room is lost but for the metadata; the guest map is unchanged. EIO exactly when some I/O fails, EFBIG only without room. |
| `Qcow2.Qcow.WritePart` | src/core/qcow2.c:799-841 | Writing part of one guest cluster takes one cluster for an absent or shared L2 table and one for data that is absent, zero or shared, and nothing otherwise; EFBIG only without room for exactly these; afterwards no later guest cluster needs more than before. |
| `Qcow2Room.MovedKeepsRoom` | src/core/qcow2.c:627-668 | Doubling the refcount table until it has the required entries costs nothing that the room for the clusters still to come does not include. |
| `Qcow2Room.RoomInTable` | src/core/qcow2.c:627-686 | There is room for `n` more clusters in particular when the present table has an entry for every block of the enlarged file and that file is within the limit. |
| `Qcow2.Qcow.FlushRefcounts` | src/core/qcow2.c:574-625 | It fails exactly when some write or sync fails; otherwise every refcount on disk equals the one in memory, and only refcount metadata was written. |
| `Qcow2.Qcow.WritableL2` | src/core/qcow2.c:750-778 | Afterwards only this L1 entry uses the table, the refcounts and COPIED flags are exact again, and the guest sees no change. It takes a cluster exactly if the table was absent or shared; EIO exactly when some I/O fails, EFBIG only without room for that cluster. |
| `Qcow2.Qcow.DropReference` | src/core/qcow2.c:735-748 | Dropping one path lowers exactly that count and sets the COPIED flags of a cluster that has become unshared; EINVAL only for a count of zero, EIO exactly when some I/O fails. |
| `Qcow2.Qcow.Sync` | src/core/qcow2.c:850-874 | On an image that has not failed it gives EIO exactly when some I/O of the call fails; otherwise the file is complete and marked clean and the guest is unchanged. After an error the image is latched as failed, and still either says dirty or is complete. |
| `Qcow2Open.SyncedAccepted` | src/core/qcow2.c:110-202 | The file of a flushed image in the kept invariant meets every condition `validate_tables` tests. |
| `Qcow2Validate.ValidateTables` | src/core/qcow2.c:110-202 | The validator accepts a file exactly when it is `Accepted`: tables readable, nothing aliased, every stored count equal to the number of references, and COPIED set exactly on a count of one. |
| `Qcow2Validate.Open` | src/core/qcow2.c:204-414 | An image opens exactly when it and its refcount table are small enough, its L1 table reaches the whole guest, and it is `Accepted`; it opens in the state every later call requires. |
| `Qcow2Validate.Reopens` | src/core/qcow2.c:850-874 | After a sync the next open takes the file, by all its conditions, and finds the same guest bytes. |
| `Qcow2Validate.CleanReopens` | src/core/qcow2.c:850-874 | Whatever I/O failed before, a version 3 file that does not say dirty opens again with the guest bytes of the last successful call. |
| `UndoLog.ParseEncode` | src/core/transaction.c:34-106 | Reading the log backwards by its footers recovers exactly the records written, in order. |
| `UndoLog.RecordedWrite` | src/core/transaction.c:34-61 | After the range has been recorded, a write that ends in any way, torn included, does not change what the log restores. |
| `Lifecycle.Image.TransactionEnd` | src/core/transaction.c:63-106 | Ending with an error and successful undo writes restores the image at the start of the operation; a failed undo leaves exactly the image after the records replayed so far and the bytes of the next that landed. |
| `Lifecycle.Image.Mutate` | src/mutate/mutate.c:36-93 | Under every pattern of failures: success means all writes are in the image and synced; a reported error other than a failed undo leaves the image as it was apart from its state byte; the clean byte is only ever written over the synced new image or the synced old one; and after a failed undo the image is marked clean exactly when the clean byte had reached it and no replayed write put the saved byte back. When nothing fails, the result is the operation's own: its error, EINVAL for a write outside the image, 0 otherwise, however the image was marked at open. |
| `Lifecycle.PartUndoByte` | src/core/transaction.c:63-106 | Wherever the replay stops, the state byte is the saved one if a replayed record or a landed byte covers it, and is untouched otherwise. |
| `Lifecycle.Image.WriteFinish` | src/core/image.c:246-269 | The clean byte goes out alone, after an fsync, and only for an image that was clean at open. |
| `Lifecycle.CleanAfterFailedUndo` | src/mutate/mutate.c:69-93 | A run of `Mutate` that returns EUCLEAN, keeps the operation's write and leaves the image marked clean. |
| `Lifecycle.Session.Mutate` | src/mutate/mutate.c:36-93 | How a mutation in a session ends, under every pattern of failures: refused by a failed session, without a transaction, or with one. The image is the old one with the writes applied if they succeeded and the old one if not, whatever the refresh afterwards reports; a failed undo leaves exactly its partial replay; the session fails exactly on a failed undo, an EUCLEAN status or a failed refresh; nothing is marked clean on the way. When nothing fails, the result is the operation's own. |
| `Lifecycle.RunSession` | src/mutate/mutate.c:13-34 | Over any number of mutations with any failures: each one leads from one image to the next as `Session.Mutate` says, all are refused after the first that fails the session, and the last image stays; if none does, the image is the start with the successful mutations applied. It is marked clean only by the close of a session that did not fail. When nothing fails, every mutation has its own result and the close succeeds. |
| `Lifecycle.KeptAfterError` | src/mutate/mutate.c:80-86 | A run in which a mutation returns an error and its write stays, because only the refresh failed. |
| `Vdi.PublishAccepted` | src/core/image.c:533-558 | Every prefix of the writes that publish a new block, restore writes included, passes the open-time checks, except for the last one in exactly one case. |
| `Vdi.StrandedExample` | src/core/image.c:533-558 | That case, on an honest outcome of the four writes. |
| `Vdi.Vdi.Materialize` | src/core/image.c:477-559 | Allocating a block does not change what the guest reads; every file state on the way is accepted, except the exact case above, which ends in a latched failure. Without an I/O failure it answers ENOSPC exactly when the block has no slot and none is left, and succeeds otherwise. |
| `Vdi.Vdi.Write` | src/core/image.c:561-606 | A successful write replaces the range in the flat bytes the guest sees, with parent and zero fill; a failed one has at most torn its range; only a latched failure can leave a file that the next open rejects. Inside the disk and without an I/O failure it answers ENOSPC exactly when fewer slots are left than blocks of the range need one, and succeeds otherwise. |
| `Vdi.Vdi.Read` | src/core/image.c:397-475 | Inside the disk a read fails exactly when some I/O of the call fails; otherwise it returns the flat bytes of the range, from the file, the parent or zero fill. |
| `Vdi.CheckMap` | src/core/image.c:804-869 | The open-time check accepts exactly the maps that are injective into the allocated blocks. |
| `Vdi.Reopens` | src/core/image.c:804-869 | An image that has not failed is accepted by the next open and shows the same bytes. |
| `Claims.Fsck.Check` | src/fsck/pass1.c:206-271 | For every fragment the claims owed equal its bitmap bit plus its entries in the duplicate list, through phases 1, 1b and 4; exactly the inodes that share a fragment or have bad blocks are marked; once all marked inodes are cleared, the list is empty and the bitmap is the remaining claims. The run is complete exactly when no inode has ten chunks out of range or ten claims on fragments that are claimed already. |
| `Claims.CheckVolume` | src/fsck/pass1.c:206-271 | The same for a run from the reserved fragments on: if it completes, with the same exact condition, and nothing is refused, no duplicate is left and the bitmap is exactly the reserved and remaining claims. |
| `Claims.FragmentInRange` | src/fsck/inode_scan.c:121-160 | A chunk that passes the range check passes it fragment by fragment, so all phases skip the same chunks. |
| `Namespace.Tree.Rename` | src/mutate/mutate.c:1141-1296 | A successful rename, over nothing, a file or an empty directory, moves exactly that entry and keeps a rooted tree with truthful ".." entries and link counts; a failed one changes nothing. Unless a write fails, the result is a function of the old tree: EINVAL, ENOTEMPTY, ENOTDIR, ENOENT, EISDIR and EMLINK each exactly under its condition, 0 in every other case. For existing names, EINVAL is returned exactly for a directory that would move below itself or more than 1023 levels deep. |
| `DeepTrees.DeepChain` | src/mutate/mutate.c:303-325 | For every depth over 1023 a valid tree with a directory that is refused as the target although nothing would move below itself. |
| `DeepTrees.RenameTooDeep` | src/mutate/mutate.c:1212-1216 | The rename on that tree returns EINVAL. |
| `Namespace.Tree.Mkdir` | src/mutate/mutate.c:586-692 | A new directory is the old tree plus that directory, with both link counts right; unless a write fails, the result is a function of the old tree, with EEXIST, EMLINK and the others exactly under their conditions. |
| `Namespace.Tree.Create` | src/mutate/mutate.c:377-466 | A new file is the old tree plus one entry, with a link count of one; unless a write fails, it is refused exactly for a dot name, a parent that is no directory, or a name in use. |
| `Namespace.Tree.Rmdir` | src/mutate/mutate.c:753-811 | Only an empty directory can be removed; exactly it goes, and the parent loses one link; unless a write fails, every empty directory but the root is removed, and each error has its exact condition. |
| `Namespace.Tree.Link` | src/mutate/mutate.c:813-878 | A second name raises the link count; directories are refused; unless a write fails, each error has its exact condition, EMLINK included. |
| `Namespace.Tree.Unlink` | src/mutate/mutate.c:521-584 | A name goes, and the inode with its last one; unless a write fails, it succeeds exactly for the name of a file. |
| `Namespace.NeverOwnAncestor` | src/mutate/mutate.c:303-325 | In every valid tree no directory lies on the chain of ".." above itself. |
| `Namespace.OneName` | src/mutate/mutate.c:813-878 | In every valid tree a directory other than the root has exactly one name, in the directory its ".." names. |
| `Superblock.InodeSlotInside` | src/core/layout.c:170-215 | For every accepted superblock, stagger mask and inode number, the 128-byte slot lies in its own group's inode area and in the slice. |
| `Superblock.InodeSlotPlace` | src/core/layout.c:189-215 | The slot is where the group's start, the inode area, the block and the row put it, with no term of the formula left out. |
| `Superblock.CgStartStagger` | src/core/layout.c:170-179 | For a cycle mask that clears the low `j` bits, the start of a group is its base plus `cgDelta` for each of the groups since the last multiple of `2^j`. |
| `Superblock.AndBit` | src/core/layout.c:176-178 | For every mask, each bit of the number that selects the stagger is the product of the two bits. |
| `Superblock.InodeSlotsDisjoint` | src/core/layout.c:170-215 | The slots of different inodes do not overlap. |
| `Superblock.AcceptedLayout` | src/core/image.c:271-337 | An accepted superblock describes a layout on which the allocator and the files are proved, with blocks of at least 1024 pointers, and every block's cylinder and rotational position is that of its first sector on the disk. |
| `Superblock.FragmentGrouped` | src/core/image.c:271-337 | Every fragment of the volume belongs to a group and lies within that group's length. |
| `Superblock.CountersStored` | src/core/image.c:271-337 | For an accepted superblock, no counter of a consistent group can exceed 16 bits, so none of the stored fields wraps. |
| `Directories.Directory.Insert` | src/mutate/dir_mutate.c:44-166 | Reusing a free record, splitting slack or adding a block keeps the directory tiled and, if the name was absent, makes the lookup map the old one plus the new entry; on a tiled directory it fails only if some I/O fails. |
| `Directories.Directory.Lookup` | src/core/directory.c:7-121 | The lookup returns the inode of the first live record with the name; on a tiled directory it fails only if some I/O fails. |
| `Directories.Directory.Remove` | src/mutate/dir_mutate.c:168-259 | A successful removal writes exactly the merged bytes; for a name that occurs once it removes that name and nothing else exactly when `SafeToRemove` holds, which it does whenever the record before it is live. Unless some I/O fails, it succeeds on a tiled directory exactly for a name that is there and is not a dot name. |
| `DirFolders.InsertEntry` | src/mutate/dir_mutate.c:44-166 | On a directory whose bytes represent a folder of the tree, insertion yields the folder with the entry, and fails exactly when some I/O fails. |
| `DirFolders.RemoveEntry` | src/mutate/dir_mutate.c:168-259 | Removal succeeds exactly for a name that is there, if no I/O fails; of a name that occurs once it yields the folder without the entry exactly when it is safe; so the tree operations are right on disk under that condition. |
| `DirRemoval.RemovalExact` | src/mutate/dir_mutate.c:229-251 | The exact condition, computable from the bytes: read from the end of the merged record, every name that occurs there or behind the removed record is found alike. |
| `DirRemoval.MergeEndAt` | src/mutate/dir_mutate.c:229-251 | The merged record ends short of the next one by the length of the free records in between, so at or before the removed record exactly if these are at least as long as it. |
| `DirRemoval.NameSurvives` | src/mutate/dir_mutate.c:229-251 | If the merged record ends at a record at or before the removed one, the name is still found after a successful removal. |
| `DirRemoval.TilingBreaks` | src/mutate/dir_mutate.c:229-251 | If it ends where the removed record's unused bytes are zero, the directory is no longer tiled. |
| `DirExamples.RemovedNameIsFound` | src/mutate/dir_mutate.c:229-251 | A directory, two safe removals and one insertion later: a removal succeeds and the name is still found. |
| `DirExamples.RemovalBreaksTiling` | src/mutate/dir_mutate.c:229-251 | The same kind of history, after which a removal leaves a directory that cannot be read. |

## Findings

Properties that the code does not have, each with its exact condition and an input.

| property | source | when it fails |
|---|---|---|
| Removing a name removes that name and nothing else. | src/mutate/dir_mutate.c:229-251 | The removed record is merged into the last live record before it even if free records lie between. It works exactly when `DirRemoval.SafeToRemove` holds (`RemovalExact`); a live record directly before suffices. `DirExamples` gives bytes for both failures: the name is still found, and the directory can no longer be read. |
| An image whose recovery failed is never left marked clean (docs/writes.md, "failed recovery leaves the image unclean"). | src/mutate/mutate.c:69-93, src/core/image.c:246-269 | When the undo fails, the image says clean exactly if the clean byte had reached it in the first, failed `nextufs__write_finish`, its replacement was lost, and no replayed record put the saved state byte back (`Lifecycle.Image.Mutate`). `CleanAfterFailedUndo` is such a run: the fsync after the clean byte fails, the dirty byte is lost, and the undo log cannot be read. |
| Every state of a VDI file that a returned error leaves behind opens again. | src/core/image.c:533-558 | Publishing the map entry reports an error although it landed, restoring the entry is lost, and restoring the count lands: the map then names a block past the count. This is the only case (`Vdi.PublishAccepted`), and `StrandedExample` is an instance. |
| A mutation in a session that reports an error was undone. | src/mutate/mutate.c:80-86 | Apart from a failed undo, which leaves a partial replay, the writes are still there exactly when they all succeeded and the refresh of the superblock after them failed (`Lifecycle.Session.Mutate`, `KeptWithError`). `KeptAfterError` is such a run. The session refuses everything afterwards. |
| EINVAL from renaming a directory means that it would move below itself. | src/mutate/mutate.c:303-325 | EINVAL is also returned exactly when the target directory is more than 1023 levels below the root (`Namespace.Tree.Rename`). `DeepTrees.RenameTooDeep` is a rename of that kind, on a valid tree of any such depth. |

## Left out

- Decoded metadata: superblock, group, inode and L1/L2 fields are values; their byte order and offsets are modelled only for index blocks, directory records, the undo log and inode slots. Magic numbers and the QCOW2 and VDI header fields are taken as read.
- Integer width: `int` throughout. `Superblock.CountersStored` shows that the group counters fit; sums of file sizes and addresses are bounded by the checks modelled.
- FileIo.Write: that enough whole blocks are free is sufficient for success and not necessary, since partial blocks may serve; an ENOSPC is pinned by what the volume is short of at the moment of the failure.
- FileSystem.FileTable.Run: after an operation has been undone, the moment at which it failed is no longer visible; its error is stated through what the volume could afford before it.
- I/O errors inside the allocator and file operations: `Volume`, `FileIo` and the others run on a disk that does not fail; a failed write anywhere is undone by the transaction, which `Lifecycle` models for arbitrary write sequences. `VolumeBuild.Table.Grow` and `Namespace` report failure with nothing changed on that ground.
- Undo log appends are all or nothing, and an fsync that fails leaves the same bytes to be written by the next one.
- Volume.Volume.FreeRun: requires that the run stays inside one block and group, which the source leaves to its callers.
- VolumeBuild.InitGroups: requires the geometry checks that the formatter makes before the first group; deriving the geometry itself is not modelled.
- VolumeBuild.Table.Grow: the evacuation of files from the summary extension is not modelled, nor the disk label, the superblock copies, `fs_dsize`, cylinder counts and inode counts; a slice larger than the filesystem is taken at its filesystem size.
- Inode bitmaps: allocation and freeing of inodes, and `nifree` and `ndir`, are not modelled.
- `allocate_data_for_inode` (src/core/alloc.c:853-918), used for new files from the host, is not modelled; growing by `FileIo.Write` is.
- FileFree.Free: a symbolic link stored in the inode has no storage and is not treated.
- Time stamps, memory exhaustion, file locking, disk labels and path strings.
- Qcow2.Qcow.Write: that there is no room is necessary for EFBIG, not sufficient: a refcount table that doubles twice at once skips the table in between, which `Qcow2Room.Room` counts.
- Qcow2.Qcow.Read: the reads of one piece from the parent chain are one question to the environment.
- Qcow2 clusters: a cluster is typed as table or data by its contents, so an L2 table that is also used as data, which `validate_tables` detects by its region tags, cannot be expressed; the parent chain is its flat bytes; compressed clusters, encryption and snapshots are refused by the source. A failed host write is not torn; it either landed or not for the dirty bit, and elsewhere the image is latched and its later state is not described beyond `Held`.
- Qcow2.Qcow.EnsureRefcounts: on-disk counts during a move of the refcount table are not ordered, as in the source.
- Vdi.Vdi.Materialize: each 4-byte header or map word lands whole or not at all.
- Claims.Fsck.Check: the stream of chunks of every inode is given and the same in all phases; `ckinode` and `iblock`, which produce it, are not modelled. A run that stops at the limits on bad or duplicate blocks promises nothing but its condition. Pass 2, lost+found and the operator's answers other than refusing to clear are left out.
- Namespace.Tree.Rename: read errors, permissions, sticky directories, name lengths and path lookup are left out; a full directory, no free inode and a failed write are failures of the environment. `Tree` works on entry maps; `DirFolders` shows for one directory that its bytes follow them, on the condition that removals are safe.
- Directories.Directory.Remove: the directory is one byte string instead of a walk over its blocks.
- Power loss: the undo log does not survive it, as the documentation says.
- FUSE, command lines, reports, fsck dialogue, image creation and label writing.
