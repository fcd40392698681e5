# An ext2-style file system over a cached block disk

This project models a small user-space file system and proves what its layers promise each other and their callers.
The system has four layers, and so has the model.

- **The write-back cache** (`Cache.dfy`, `LruModel.dfy`, `LruTheory.dfy`). A slot array, a queue of free slots, a
  recency list and a map of list nodes sit in front of a block disk. The class is proved to follow a value-level
  model; over that model the plain-disk refinement, the LRU stack property, inclusion, competitiveness and write-back
  amortisation are proved for all runs.
- **Bitmaps and group geometry** (`BitMap.dfy`, `Geometry.dfy`, `Allocation.dfy`, `Image.dfy`). Bits are packed most
  significant first and handled by arithmetic. A disk image means a value of type `Fs`, and each region write is
  proved to change exactly its own part of that value.
- **On-disk structures** (`Inodes.dfy`, `PointerTree.dfy`, `DirRecords.dfy`, `DirBlock.dfy`, `EntryBlock.dfy`, `Fs.dfy`,
  `Ext2m.dfy`, `SuperBlock.dfy`, `Formatting.dfy`, `Backups.dfy`, `DiskFormat.dfy`). The class `Ext2m` keeps the shared
  scratch block as a field; each of its methods is proved to change the file system on the disk as a function of module
  `Fs` says. Directories are proved to be finite maps (`Directories.dfy`, `DirUpdates.dfy`, `DirMaps.dfy`). `Backups.dfy`
  follows the copies that formatting puts into every group, `DiskFormat.dfy` says where each field lies on the disk.
- **Descriptors and files** (`FileData.dfy`, `Files.dfy`, `FileTheory.dfy`, `Overwrites.dfy`, `Creation.dfy`,
  `Namespace.dfy`, `Balance.dfy`, `Fathers.dfy`, `World.dfy`, `Vfs.dfy`, `Runs.dfy`, `Paths.dfy`, `Sessions.dfy`). Byte
  ranges are split over scattered blocks. A write refines a splice into a flat byte sequence, and whole runs keep
  ownership, the balance of free and listed blocks, isolation and the tree of directories from formatting on.
  `DirChains.dfy`, `Outcomes.dfy` and `Descriptors.dfy` say of every call when it succeeds, what it answers and what it
  leaves. `Release.dfy` and `Reached.dfy` show where ownership and balance end.

`Invariant.dfy` holds the ownership invariant: metadata is never free, every block listed by a live inode is a marked
data block listed exactly once overall, files cover their size with a block to spare, and directories are well formed
with no name occurring twice. A live inode is the root, or a number from 11 on whose bit is set; the root is inode 2,
although formatting sets the bit at index 2, which is that of inode 3.

Where the code departs from what its comments or names suggest, the model follows the code:

- The cyclic scan of the block allocator visits one group less than there are (`BallocsSkipsNone` says which blocks
  it can miss), and its group hint, the inode number divided by the inodes per group, names no group for the very last
  inode number (`HintNamesAGroup`, both directions).
- Reading through a descriptor does not move its offset; writing does.
- Making a directory fails at a component that exists, so only a path whose first name is new can be made
  (`MkdirSucceeds`, both directions).
- The list of all entries of a directory leaves out "." and ".." once it has more than two entries, so it has "." twice
  if the first of several blocks holds nothing else (`AllEntriesAre`).
- Formatting does not clear the block bitmaps, so what was marked on the disk stays marked; `FormattedLoses` says that
  no block is lost if and only if no data block was marked before.
- Offsets and ends of ranges are 32-bit numbers. A write whose end reaches 2^32 stores nothing, extends the file to the
  wrapped end only, and reports all its bytes as written. `WriteRefines` says that this is exactly when the bytes are
  lost, `LosesBytes` reaches it from a fresh disk.
- Freeing an inode releases the blocks of the inode before it. `IfreeExact` says exactly when the invariant survives,
  `BreaksOwnership` reaches a state in which it does not, `OwnBlocksLeak` says what happens to the inode's own blocks,
  and `IfreeLoses` says exactly when the balance survives.
- New data blocks are not cleared: bytes between the old end of a file and a write behind it are whatever was there.

## Model

| member | source | states |
|---|---|---|
| Cache.Cache.constructor | src/cache.hpp:88-95 | a new cache is empty, shows the disk as it is, and queues every slot once |
| Cache.Cache.WriteItemBack | src/cache.hpp:28-35 | an occupied dirty slot goes to the disk and is clean; anything else stays |
| Cache.Cache.FreeLru | src/cache.hpp:59-69 | the back of the recency list is written back, unmapped, and its slot queued: the model's eviction of the least recently used block |
| Cache.Cache.GetBlockFromDisk | src/cache.hpp:71-85 | one disk read per miss, an eviction only when no slot is free |
| Cache.Cache.Update | src/cache.hpp:42-48 | the block's node moves to the front and the map is re-pointed; list, map, queue and slots stay consistent |
| Cache.Cache.ReadBlock | src/cache.hpp:117-131 | the caller's buffer gets the view of the block, and the recency order is updated |
| Cache.Cache.WriteBlock | src/cache.hpp:132-147 | the slot gets the bytes and is dirty; everything else as after a read |
| Cache.Cache.FlushBlock | src/cache.hpp:100-106 | one cached block is written back if it is dirty |
| Cache.Cache.FlushAll | src/cache.hpp:108-115 | all dirty blocks are written, each once; the disk then equals the view |
| LruModel.EvictKeeps | src/cache.hpp:59-69 | eviction changes the view nowhere and drops exactly the last block of the order |
| LruModel.ReadBlockKeeps | src/cache.hpp:117-131 | a read shows the view and hides every eviction it causes |
| LruModel.WriteBlockKeeps | src/cache.hpp:132-147 | a write changes the view at its own block and nowhere else |
| LruModel.FlushAllKeeps | src/cache.hpp:108-115 | a flush changes no view, and afterwards the disk alone is the view |
| LruTheory.RunRefinesPlainDisk | src/cache.hpp:28-147 | in every reachable state of every run the view is what a plain disk would hold |
| LruTheory.ReadsPlainDisk | src/cache.hpp:117-131 | a read in any reachable state copies out the plain disk's block |
| LruTheory.SyncedDiskIsPlainDisk | src/cache.hpp:108-115 | a flush after any run leaves on the disk exactly what a plain disk would hold |
| LruTheory.WritesAmortised | src/cache.hpp:28-35 | over any run, disk writes plus dirty blocks never exceed the writes requested |
| LruTheory.HoldsMostRecent | src/cache.hpp:42-85 | stack property: the order is the first `capacity` distinct blocks of the access history, newest first, and disk reads are the misses counted on the history |
| LruTheory.LargerCacheIncludesSmaller | src/cache.hpp:42-85 | on the same requests a larger cache holds a superset and reads the disk no more often |
| LruTheory.Competitive | src/cache.hpp:42-85 | with k blocks against any policy with h <= k: (k-h+1) times LRU's disk reads is at most k times the policy's fetches plus (k-h+1)k |
| LruTheory.CompetitiveOnDemand | src/cache.hpp:117-147 | with equal capacities: at most k times the misses of any replacement policy, plus k |
| BitMap.SetBits | src/bitmap.hpp:117-121 | setting a bit by its byte and mask sets that bit of the sequence and no other |
| BitMap.ResetBits | src/bitmap.hpp:123-127 | resetting a bit by its byte and mask clears that bit and no other |
| BitMap.TallyAfterUpdate | src/bitmap.hpp:78-88 | the count changes by one exactly when a counted position changes its value |
| DiskFormat.DigitsOfByte | src/bitmap.hpp:90-127 | the bits of a bitmap's byte are its binary digits, the most significant first |
| BitMap.BitMap.Set | src/bitmap.hpp:117-121 | the content gets the bit, in place in the byte array |
| BitMap.BitMap.Reset | src/bitmap.hpp:123-127 | the content loses the bit, in place in the byte array |
| BitMap.BitMap.NextBit | src/bitmap.hpp:67-76 | the first position from the start on with the value, or none, and then there is none |
| BitMap.BitMap.Count | src/bitmap.hpp:78-88 | the number of positions from the start on with the value |
| Geometry.LayoutSound | src/ext2m.hpp:37-74 | for every disk with room: regions fill a group exactly, all groups lie on the disk, bitmaps fit a block, and the data area is never smaller than what the inodes were sized for, despite both roundings |
| Geometry.ConfiguredDisk | src/ext2m.hpp:37-74 | the layout of the configured disk of 64 MB and 3 KB |
| DiskFormat.ConfiguredAddresses | src/ext2m.hpp:117-181 | the block numbers of the structures of the configured disk |
| Geometry.AddressLocated | src/ext2m.hpp:117-181 | each piece of each group lies in blocks 1..n*blocks_per_group, and no two pieces share a block |
| Geometry.LocatedAddress | src/ext2m.hpp:117-181 | each of these blocks is a piece of some group, so the pieces tile the disk |
| Geometry.InodePlaceInTable | src/ext2m.hpp:994-1010 | an inode's block lies in the table of its own group, and its slot in the block |
| Geometry.InodePlaceInjective | src/ext2m.hpp:994-1010 | two inode numbers never share a table slot |
| Geometry.HintNamesAGroup | src/ext2m.hpp:1083-1083 | the group hint is a group if and only if the inode is not the last one |
| Inodes.SlotUpdated | src/ext2m.hpp:919-937 | writing one slot of a table block round-trips through its bytes and leaves the other seven alone |
| DiskFormat.InodeFields | src/ext2m.hpp:919-937 | the byte offset and width of every field of an inode in its table block |
| Image.WriteInode | src/ext2m.hpp:919-937 | writing an inode's table block changes that inode and nothing else of the file system |
| Image.WriteBlockBits | src/ext2m.hpp:236-244 | writing a block bitmap changes its own group's bits and nothing else |
| Image.WriteInodeBits | src/ext2m.hpp:251-259 | writing an inode bitmap changes its own group's bits and nothing else |
| Image.WriteData | src/ext2m.hpp:966-987 | writing a data block changes that block's data and nothing else |
| Allocation.FreeFromMeans | src/ext2m.hpp:824-857 | what the scan can find: free data blocks only, each once, in cyclic-group then increasing order |
| Allocation.ScanFreeMembers | src/ext2m.hpp:828-828 | a scan of n groups finds exactly the free blocks of the groups less than n steps ahead |
| Allocation.BallocsMeans | src/ext2m.hpp:824-857 | exactly `count` distinct, previously free, non-metadata blocks in scan order, none of them in the group just before the hint |
| Allocation.BallocsSkipsNone | src/ext2m.hpp:824-857 | a free block of a scanned group that is not returned comes after all returned ones |
| Allocation.FirstIsNearest | src/ext2m.hpp:824-857 | the first block returned is the free data block at the least cyclic distance from the hint's group, the lowest there |
| Allocation.FreeFromCount | src/ext2m.hpp:828-828 | what an allocation can find is all that is free, less the free blocks of the one group that is never scanned |
| Allocation.BallocsConserves | src/ext2m.hpp:824-857 | only the returned bits flip, and the free blocks drop by exactly `count` |
| Allocation.BfreeUndoesBalloc | src/ext2m.hpp:865-886 | freeing the block just allocated passes the assertions and restores every bitmap |
| Allocation.IallocMeans | src/ext2m.hpp:775-800 | 0 only if no number from 11 on is free, otherwise the lowest free one, whose bit alone is set |
| PointerTree.EnumerationIsLookup | src/ext2m.hpp:291-318 | the recursive traversal returns exactly the blocks that positional lookup through direct, single, double and triple pointers gives, up to the first zero path or the full capacity, for any pointer contents |
| DiskFormat.RecordSize | src/ext2m.hpp:436-461 | a record takes up 8 bytes, the name and a NUL, rounded up to a multiple of four |
| DirRecords.InsertedShaped | src/ext2m.hpp:436-461 | insertion keeps the tiling of the block, "." first, ".." second, and record lengths that cover their names |
| DirRecords.InsertedEntries | src/ext2m.hpp:436-461 | exactly one entry appears, right after the record that was split; all others are kept |
| DirRecords.RemovedShaped | src/ext2m.hpp:470-494 | removal keeps the tiling and the shape |
| DirRecords.InsertRemoveRoundTrip | src/ext2m.hpp:436-494 | adding and freeing an inode restores every record with its original length |
| DirBlock.InitBlockRecords | src/ext2m.hpp:939-958 | the bytes of a new block parse as "." and ".." with their lengths |
| DiskFormat.NewBlockBytes | src/ext2m.hpp:939-958 | byte by byte: inode, length, name length, type and name of the two records of a new block |
| DirBlock.AddEntryRecords | src/ext2m.hpp:436-461 | the byte-level insertion parses as the list-level insertion at the first record with enough slack, and fails if and only if there is none |
| DirBlock.FreeEntryRecords | src/ext2m.hpp:470-494 | the byte-level removal parses as merging the first record of the inode into its predecessor |
| DirBlock.AddFreeRoundTrip | src/ext2m.hpp:436-494 | on bytes: add then free of an inode without a record restores every record |
| DirBlock.LifeOfBytes | src/ext2m.hpp:436-494 | over every sequence of additions and removals on a new block the bytes parse, as what the same operations leave of the list of records, with both dot records in place |
| EntryBlock.InitEntryBlock | src/ext2m.hpp:939-958 | the field stores leave exactly the bytes of a new block |
| EntryBlock.EntryBlock.NextEntry | src/ext2m.hpp:419-429 | yields the records in order and stops at the block end |
| EntryBlock.EntryBlock.AddEntry | src/ext2m.hpp:436-461 | the in-place scan and split does what the byte-level insertion says; the length assertion holds |
| EntryBlock.EntryBlock.Free | src/ext2m.hpp:470-494 | the in-place scan and merge does what the byte-level removal says; the predecessor is never null |
| Ext2m.Ext2m.Ballocs | src/ext2m.hpp:824-857 | the nested loops end and return the first `count` blocks of the scan, with exactly their bits set on the disk |
| Ext2m.Ext2m.Bfree | src/ext2m.hpp:875-886 | by division to the very bit of the block; block 0 is left alone |
| Ext2m.Ext2m.Ialloc | src/ext2m.hpp:775-800 | the loops over groups and bits find the lowest free number from 11 on and set its bit |
| Ext2m.Ext2m.GetInode | src/ext2m.hpp:994-1010 | reads the inode of that number |
| Ext2m.Ext2m.WriteInode | src/ext2m.hpp:919-937 | replaces the inode of that number and changes nothing else |
| Ext2m.Ext2m.AllBlocks | src/ext2m.hpp:1040-1073 | the recursive reads collect exactly the enumeration of the pointer trees |
| Ext2m.Ext2m.AddBlockToInode | src/ext2m.hpp:1081-1099 | in the direct range: the first zero pointer takes the first block the scan finds |
| Ext2m.Ext2m.GetInodeAllEntry | src/ext2m.hpp:751-768 | all records in order, dot entries left out once more than two entries were read |
| Ext2m.Ext2m.GetFather | src/ext2m.hpp:497-513 | the inode that ".." names in the first block |
| Ext2m.Ext2m.AddEntryToInode | src/ext2m.hpp:966-987 | the first block that takes the entry gets it, else a new block with "." and ".." |
| Ext2m.Ext2m.FreeEntryToInode | src/ext2m.hpp:1018-1032 | the first block with a record of the inode loses that record |
| Ext2m.Ext2m.Ifree | src/ext2m.hpp:894-911 | releases the blocks that the inode before lists, then clears the inode's own bit |
| Ext2m.Ext2m.Format | src/ext2m.hpp:552-743 | leaves the file system that `Formatted` describes, fully written to the disk; block 0 begins with the boot text, every group begins with the super block and the descriptors of group 0, and the descriptor of each group names the blocks where its bitmaps and its inode table lie |
| Backups.CopiedMeans | src/ext2m.hpp:638-673 | what is written outside bitmaps, tables and data: equal copies in every group, and descriptors that point at the structures located in their group |
| Ext2m.Ext2m.ReadInfo | src/ext2m.hpp:264-281 | takes the geometry from the super block; the file system is what the disk means under it |
| Ext2m.Ext2m.constructor | src/ext2m.hpp:519-535 | mounts what is recognised and formats what is not |
| Ext2m.AfterFormatRecognised | src/ext2m.hpp:97-110 | after formatting the super block is recognised and describes the geometry, and the invariant holds |
| Directories.FindIsLookup | src/vfs.hpp:18-28 | over all blocks of a directory, the search for an ordinary name is the lookup in its map |
| Directories.FreshBlockTakes | src/ext2m.hpp:982-985 | the add to a newly initialised block never fails for a name of up to 255 bytes |
| DirMaps.AllEntriesAre | src/ext2m.hpp:751-768 | the list of all entries is both dots and the ordinary entries of all blocks, with "." once more exactly if the first of several blocks has nothing else |
| DirMaps.FindInMap | src/vfs.hpp:18-28 | in a live directory "." and ".." are always found, and other names exactly as the map says |
| DirMaps.DotsFound | src/vfs.hpp:18-28 | in every live directory "." leads to the directory itself and ".." to the inode of its second record |
| DirMaps.AddEntryInserts | src/ext2m.hpp:966-987 | adding a name that was not found inserts it into the map, over any number of blocks, keeps ".." and the invariant |
| DirMaps.FreeEntryRemoves | src/ext2m.hpp:1018-1032 | freeing removes one name of the inode from the map and no other, and keeps the invariant |
| DirMaps.FreeEntryPossible | src/ext2m.hpp:470-494 | the assertions of the removal hold for a named inode that is neither the directory nor a father entry |
| Growth.AddBlockAppends | src/ext2m.hpp:1081-1099 | append by growth: the block is fresh, the enumeration gets it at the end, every other inode, enumeration and data block is as before |
| Growth.AddBlockNearest | src/ext2m.hpp:1081-1099 | the block added to an inode is the nearest free one, seen from the group that is the inode number over the inodes per group |
| Invariant.ChangeKeeps | src/vfs.hpp:32-52 | the general step: if one inode changes with blocks of its own and is good afterwards, the whole invariant is kept |
| FileData.SliceIsFlat | src/vfs.hpp:453-483 | the pieces the read loop copies make up the slice of the concatenated blocks |
| FileData.PatchIsSplice | src/vfs.hpp:524-557 | the write loop splices its bytes into the concatenated blocks |
| FileData.PatchTwice | src/vfs.hpp:524-557 | storing two adjacent ranges equals storing the joined range, wherever the cut falls |
| Files.GrowMeans | src/vfs.hpp:513-522 | growing block by block finds the blocks that one allocation of all of them would find |
| FileTheory.WritePossible | src/vfs.hpp:488-522 | a live file can be written if and only if the numbers are in range and enough direct slots and free blocks are left |
| FileTheory.WriteRefines | src/vfs.hpp:488-560 | the bytes are stored at the offset, all other old bytes are kept and the size is the maximum, if and only if the end stays below 2^32; otherwise nothing is stored and the size is at least the wrapped end; every byte of the result, also in a gap, is determined; in all cases the invariant is kept and every other live inode is undisturbed |
| FileTheory.WriteWraps | src/vfs.hpp:505-511 | a write whose end wraps around leaves what a write of no bytes at the wrapped end leaves |
| FileTheory.WriteTwice | src/vfs.hpp:488-560 | two adjacent writes that end below 2^32 leave exactly the file system of one write of the joined bytes |
| FileTheory.WriteRestamps | src/vfs.hpp:498-522 | a write sets the size and both times, leaves every other field of the inode, and the list has exactly the blocks that its end needs, one to spare behind a full block |
| FileTheory.ReadRefines | src/vfs.hpp:432-486 | a read returns the content from the offset to the count or the end of the file, and indexes only existing blocks |
| FileTheory.ReadKeeps | src/vfs.hpp:441-444 | a read changes a time stamp, no bytes, and keeps the invariant |
| Overwrites.OverwriteAnyLength | src/vfs.hpp:524-557 | an overwrite inside the list, at any pointer level, splices the bytes, keeps the enumeration and touches no other block |
| Overwrites.ReadAnyLength | src/vfs.hpp:446-483 | a read through any levels of pointer blocks returns the stretch of the concatenated blocks |
| Creation.MakeFileKeeps | src/vfs.hpp:87-102 | an unused inode becomes an empty file under the name; all other inodes and names are as before |
| Creation.MakeDirKeeps | src/vfs.hpp:18-52 | an unused inode becomes an empty directory under the name; all other inodes and names are as before |
| Creation.FileRecorded | src/vfs.hpp:90-99 | every field of a new file's inode, and its entry with type 1 in the directory |
| Creation.DirRecorded | src/vfs.hpp:35-51 | every field of a new directory's inode, and its entry with type 2 in the father |
| Creation.BornDirNearest | src/vfs.hpp:32-41 | the only block of a new directory is the nearest free one, seen from the group of its own number |
| Fathers.AddEntryFathers | src/ext2m.hpp:966-987 | adding an entry keeps that every block of every directory names the father that ".." leads to, also in a new block |
| Creation.ContentKept | src/vfs.hpp:488-560 | an undisturbed file has the same bytes |
| Creation.MapKept | src/vfs.hpp:488-560 | an undisturbed directory has the same map |
| Namespace.OnePath | src/vfs.hpp:32-52 | in a tree no inode is reached by two sequences of names from the root |
| Namespace.TreeGrows | src/vfs.hpp:32-52 | a new inode under a new name keeps the tree: one name for each inode, every live inode reachable, ".." leading back |
| Balance.MarkedIsListed | src/ext2m.hpp:824-857 | when nothing is lost, a data block is marked if and only if a live inode lists it |
| Balance.FreeBalance | src/ext2m.hpp:824-857 | when nothing is lost, the free blocks and the listed ones add up to the number of data blocks |
| Balance.WriteAccounts | src/vfs.hpp:488-560 | whatever a write marks is listed afterwards, and no list gets shorter, also when its end wraps around |
| Balance.MakeFileAccounts | src/vfs.hpp:87-102 | the same of the creation of a file, with the block the directory may grow by |
| Balance.MakeDirAccounts | src/vfs.hpp:18-52 | the same of the creation of a directory and its first block |
| Vfs.Vfs.FindDir | src/vfs.hpp:18-30 | the scan of the entries returns the first match |
| Vfs.Vfs.FindOrMakeDir | src/vfs.hpp:18-52 | returns what is there, or allocates and enters a new directory, and says which |
| Vfs.Vfs.Create | src/vfs.hpp:70-102 | walks to the directory and creates the file; -1 for long names, missing components, existing names and no free inode |
| Vfs.Vfs.Mkdir | src/vfs.hpp:55-68 | makes each component inside the one before and stops at the first that exists |
| Vfs.Vfs.Open | src/vfs.hpp:414-422 | creates first if asked to, then opens a regular file on the first closed descriptor from 3 on, at offset 0 |
| Vfs.Vfs.Close | src/vfs.hpp:423-431 | clears an open descriptor, and only that |
| Vfs.Vfs.Lseek | src/vfs.hpp:561-583 | the new offset by each of the three bases, cut to 32 bits; nothing else changes |
| Vfs.Vfs.ReadRange | src/vfs.hpp:453-483 | the block loop returns the byte range |
| Vfs.Vfs.WriteRange | src/vfs.hpp:524-557 | the block loop stores the byte range and changes only data of the listed blocks, or nothing when the end has wrapped around |
| Vfs.Vfs.Read | src/vfs.hpp:432-487 | error and empty cases, then the bytes; the descriptor stays as it is |
| Vfs.Vfs.Write | src/vfs.hpp:488-560 | error and empty cases, then the bytes; the offset moves by their number modulo 2^32 |
| Runs.FoundLive | src/vfs.hpp:18-28 | a lookup in a live directory finds live inodes only |
| Runs.StepKeeps | src/vfs.hpp:414-583 | every call keeps the invariant, the descriptor table and the tree good, changes the bytes of at most the file it writes, loses no name, and lists every block it marks |
| Runs.RunKeeps | src/vfs.hpp:414-583 | ownership over whole runs, with the super block and the geometry unchanged, no name lost, the tree kept, and no block marked without being listed if none was before; all blocks of a directory go on naming the same father |
| Runs.RunIsolates | src/vfs.hpp:488-560 | over any run, a file that no call writes keeps its bytes, whatever else happens |
| Runs.WriteThrough | src/vfs.hpp:488-560 | a write through a descriptor: its bytes arrive if and only if their end is below 2^32; size, offset modulo 2^32, and every other file and directory untouched |
| Runs.ReadThrough | src/vfs.hpp:432-487 | a read through a descriptor: the bytes from its offset on, and the table unchanged |
| Runs.WriteThroughTwice | src/vfs.hpp:488-560 | two writes through one descriptor or one of the joined bytes ending below 2^32: same file system, same offset |
| Runs.ReadBack | src/vfs.hpp:432-560 | what one descriptor wrote another one reads back, if and only if the end of the write is below 2^32 |
| Paths.RunKeepsPaths | src/vfs.hpp:414-583 | over any run, every path that resolves, through dot components too, goes on resolving to the same inode |
| Paths.CreatedIsFound | src/vfs.hpp:70-102 | before a successful create the walk along the path fails, afterwards it finds the new empty file; every path that resolved still does, to the same inode |
| Outcomes.CreateSucceeds | src/vfs.hpp:70-102 | 0 if and only if the last name has at most 255 bytes, the walk to its parent succeeds, it is no dot name and not in the parent's map, and the bit of some inode number from 11 on is clear; otherwise -1 and nothing changes |
| DirChains.MkdirMakes | src/vfs.hpp:55-68 | after a 0 every nonempty prefix of the path, which did not resolve before, leads to a new directory whose ".." is the prefix before and whose map holds just the next component; all other directories and paths are as before |
| DirChains.MakesAsFar | src/vfs.hpp:55-68 | any call makes as many directories as there are names before the first dot and free inodes, none if the first name exists, and answers 0 if and only if these are all |
| DirChains.MkdirSucceeds | src/vfs.hpp:55-68 | 0 if and only if the path is empty, or its first name is new in the root, no component is a dot name and enough inode numbers from 11 on are free |
| Outcomes.OpenAnswers | src/vfs.hpp:298-422 | for every flag: with O_CREAT and any access mode a path that can be created becomes a new empty file, opened at its start; otherwise an existing regular file is opened on the lowest closed descriptor from 3 on, and there is -1 if there is none |
| Outcomes.OpenThenRead | src/vfs.hpp:414-487 | a file opened with flag 0 is read from its start |
| Paths.OnlyPath | src/vfs.hpp:18-52 | in a tree every live inode has exactly one path without dot components |
| Paths.OpenedAtStart | src/vfs.hpp:313-339 | a successful open takes the lowest closed descriptor from 3 on, at the start of the file, and changes no other |
| Paths.CloseUndoesOpen | src/vfs.hpp:423-431 | closing what was just opened restores the table, but for a place the table grew by |
| Paths.SeeksAdd | src/vfs.hpp:573-574 | two relative seeks are one by the sum, in spite of the wrap-around at 32 bits |
| Paths.SeekUndone | src/vfs.hpp:573-574 | a relative seek is undone by its negation |
| Paths.SeekEndAppends | src/vfs.hpp:576-578 | seek to the end, then write: the content is the old one followed by the bytes, if and only if the new size is below 2^32 |
| Descriptors.SeekAnswers | src/vfs.hpp:561-583 | for every distance and base 0, 1 or 2 the answer is the new offset: base plus distance but for a multiple of 2^32, below 2^32; -1 for any other base and for a closed descriptor; nothing else changes |
| Descriptors.SeekForgets | src/vfs.hpp:570-572 | an absolute seek leaves what it would have left without the seek before it |
| Descriptors.SeekThenRead | src/vfs.hpp:432-572 | after an absolute seek to k a read returns the content from k on |
| Descriptors.ReadAnswers | src/vfs.hpp:286-296 | -1 for a closed descriptor, 0 for no bytes, the content from the offset on for access modes 0 and 2 with only the access time changed, and -1 with nothing changed for 1 and 3 |
| Descriptors.WriteAnswers | src/vfs.hpp:275-285 | -1 for a closed descriptor, 0 for no bytes, the bytes stored for access modes 1 and 2, and -1 with nothing changed for 0 and 3 |
| Descriptors.CloseAnswers | src/vfs.hpp:423-431 | closing any open descriptor answers 0, clears it and no other; closing a closed one answers -1 |
| Paths.WriteFromMinusOne | src/vfs.hpp:488-560 | five bytes written after a seek to -1 are reported and lost: the size grows to 4 at most, all old bytes stay |
| Formatting.PreparedMeans | src/ext2m.hpp:676-695 | when every group has been initialised the disk means empty tables, zero data and the metadata bits added to the old ones |
| Formatting.FormattedGood | src/ext2m.hpp:699-743 | the formatted file system satisfies the invariant and its root directory is empty |
| Formatting.FormattedInodes | src/ext2m.hpp:699-743 | only the bit at index 2 is set, and inode 2 is an empty directory with mode 0755 whose "." and ".." are 2 |
| Formatting.FormatPossible | src/ext2m.hpp:737-737 | the root's block can be allocated if and only if a data block below the last group is marked free; a disk of one group can never be formatted |
| Formatting.FormattedLoses | src/ext2m.hpp:676-743 | after formatting every marked data block is listed if and only if no data block was marked before |
| SuperBlock.FormattedIsRecognised | src/ext2m.hpp:264-281 | what formatting writes is recognised, and every geometry field is recovered from the bytes |
| DiskFormat.RecognisedBy | src/ext2m.hpp:97-110 | a disk is recognised if and only if six fields, given by their bytes, have their values |
| DiskFormat.ReadFields | src/ext2m.hpp:264-281 | the geometry by the offsets of the fields it is read from, with both rounded-up sizes |
| DiskFormat.FormattedSizes | src/ext2m.hpp:585-596 | the counts and sizes that formatting writes, by their offsets |
| DiskFormat.FormattedConstants | src/ext2m.hpp:596-620 | the times, the signature and the constants that formatting writes, by their offsets |
| Sessions.ZeroDiskFormats | src/ext2m.hpp:676-695 | a zeroed disk with at least two full groups meets the preconditions of formatting |
| Sessions.SessionKeeps | src/ext2m.hpp:519-535 | every run from a formatted disk keeps the invariant, the super block and the tree, and in every block of a directory the second record leads where ".." leads |
| Sessions.SessionBalances | src/ext2m.hpp:519-535 | in every run from a formatted disk of zeros the free blocks and the listed ones add up to all data blocks |
| Sessions.MountRoundTrip | src/ext2m.hpp:519-535 | format, any run, sync, a fresh cache: every block reads as before, and mounting gives the same file system |
| Release.IfreeBit | src/ext2m.hpp:894-911 | numbers below 11 are left alone, from 11 on the own bit is cleared |
| Release.IfreeExact | src/ext2m.hpp:894-911 | freeing an unnamed live inode keeps the invariant if and only if the blocks listed by the inode before it, live or not, are data blocks that no other live inode lists |
| Release.IfreeBehindLive | src/ext2m.hpp:894-911 | behind another live inode it is kept if and only if that one lists no blocks |
| Release.OwnBlocksLeak | src/ext2m.hpp:894-911 | no live inode lists the freed inode's blocks any more; each stays marked if and only if the inode before does not list it |
| Release.IfreeLoses | src/ext2m.hpp:894-911 | if nothing was lost, nothing is lost by freeing an inode if and only if the inode before it lists all of its blocks |
| Reached.LosesBytes | src/vfs.hpp:488-560 | format, create two files, open the first, seek to -1, write five bytes: five are reported, the file has four |
| Reached.BreaksOwnership | src/ext2m.hpp:894-911 | format, create two files, write to the first, remove the entry of the second: the invariant holds until its inode is freed |
| Reached.ConfiguredZeroDisk | src/ext2m.hpp:37-74 | the configured disk of 64 MB and 3 KB, filled with zeros, is one from which both states are reached |

## Left out

- Growth past the 12 direct blocks. The first indirect level keeps its pointer block in the scratch block that the allocator overwrites, and the other levels always open a new child; reading and overwriting are modelled at all levels.
- `unlink`, `rmdir` and `mv` as interface calls. The first two end in the release shown in module `Release`; the last one checks name clashes in the old parent only and does not update "..".
- `real_path`, `stat`, `fstat`, `exists` and `ls`: a path normaliser with an unguarded pop, and read-only reports.
- Vfs.Vfs.Create: requires that every walked component is a directory, because the code would read a file's bytes as records.
- Vfs.Vfs.Open: requires the same of its path.
- Vfs.Vfs.Mkdir: requires names of at most 255 bytes without NUL, because a longer one fails an assertion in the middle of the creation.
- Ext2m.Ext2m.Ballocs: requires enough free blocks in the scanned groups, because the code ends in a failing assertion otherwise.
- Ext2m.Ext2m.Bfree: requires a data block, as the assertion in the code does.
- Ext2m.Ext2m.AddBlockToInode: requires a direct slot, because growth through pointer blocks is left out.
- Vfs.Vfs.Write: requires fewer than 2^32 - 1024 bytes, because a longer write can wrap around into its own first block, where the code copies behind its scratch block; and no growth past the direct pointers.
- Vfs.Vfs.Read: requires that offset plus count stays below 2^64, because the sum wraps around at 64 bits and the code then takes the whole count as the length.
- FileTheory.ReadRefines: requires the same of offset and count.
- Runs.ReadThrough: requires the same of offset and count.
- FileTheory.WriteTwice: requires that the joined write ends below 2^32, because beyond that the first of the two writes can still be stored where the joined one is lost.
- Runs.WriteThroughTwice: requires the same.
- Ext2m.Ext2m.ReadInfo: requires 8192 blocks per group, a nonzero number of inodes per group and a disk that holds the described groups, which the recognition test does not check.
- Ext2m.Ext2m.constructor: requires the same of a disk that is recognised.
- BitMap.BitMap: the methods that set or clear the whole bitmap, which the other layers do not need.
- SuperBlock.IsExt2: takes the shift by the logarithm field as a comparison with zero, which leaves out shifts by 32 or more.
- The shift and mask operators on bytes are arithmetic on numbers below 256; the map of list iterators holds identities of list nodes.
- Time stamps are parameters, and the calls of the clock within one operation return the same time. The volume's name, the boot text and fields that the code leaves uninitialised are parameters or zero.
- Free counts in the super block and the descriptors after formatting, user and group numbers, link counts.
- The splitting of path strings: paths are sequences of names. Names have no NUL bytes.
- The copies of the super block and the descriptors that mounting reads into memory and never uses.
- Disk input and output, the server, the client, the shell and the login.
