# A FAT16 driver and an Ethernet transmitter, modelled and proved

The repository holds the system library of a small home-made computer. Two of its components are
modelled here.

**The FAT16 driver** (`lib/fat/`) sits on a memory card that reads and writes blocks of 512 bytes. It
keeps one block in a write-through cache, two mirrored allocation tables with chains of clusters in
them, directories of 32-byte entries, and sixteen file descriptors that carry their position along
incrementally: the current cluster and its successor, the block in the cluster, the byte in the block,
the fill of the last cluster and the absolute offset. To a program all this must look like named byte
strings with a position. That is the main result, over whole runs of calls: `Sessions.Run`.

**The CRC-32 routines and the Ethernet transmitter** (`lib/crc.asm`, `lib/bitmix.asm`, `lib/eth.c`)
compute the frame check sequence of IEEE Std 802.3, clause 3.2.9, from four tables of 256 bytes, check
frames that may be one byte too long, and lay every frame out over the remains of the one before it in
a fixed buffer, with an adjustment byte that makes the last byte of the check sequence zero.

## How the project is built

| files | what they hold |
|---|---|
| `Bytes`, `Errors`, `Layout`, `Chains` | blocks, words and error codes; where the regions of a volume lie; the table as a sequence, chains in it, first fit, freeing and cutting |
| `BlockCache`, `FatTable` | the card, the cache, reading, writing, allocating and freeing table entries, with every disk state on the way recorded |
| `Content`, `Growth`, `Writing` | the bytes of a chain; a chain grown by first fit, and what a table can look like half way |
| `Descriptor`, `Position`, `FileSteps`, `FileIO`, `Truncation`, `Seeking` | one open file: consistent descriptors, moving, reading, writing, cutting, seeking |
| `FlatFiles`, `NamedFiles`, `Conservation` | the specification: byte strings with positions, then with names and handles, and what is conserved over any run |
| `Isolation`, `System`, `Refinement`, `Interruption` | several open files at once: the heap of clusters, refinement of the specification, power cuts |
| `Names`, `Entries`, `Directory`, `Listing`, `Paths` | 8.3 names, entries, finding and creating them, listing, walking paths |
| `Folders`, `FolderSteps`, `FolderOpening`, `FolderCreation`, `Surroundings`, `FolderCommands`, `FolderRequests`, `PowerCuts`, `FileSystems`, `Sessions`, `Formatting` | directory, descriptors and files together: the invariant of the whole driver, what lies beside the directory, the calls that programs make, whole runs, and volumes on which the invariant holds |
| `Crc`, `CrcTables`, `CrcTableProof`, `CrcRoutines`, `CrcAlgebra`, `CrcCheck` | division by the polynomial, the tables, the routines, linearity, error detection, the relaxed check |
| `BitmixTable`, `Ethernet` | the bit order of the board, frames, the transmitter |

The driver is imperative and so is its model: `Volume`, `FileDescriptor`, `FileSystem` and `Transmitter`
are classes with the fields of the C structs and static variables, and their methods follow the C
functions branch by branch. Each is proved against relations between values, which is where the theorems
are stated. Ghost state is kept to the clusters of an open file, the place of the current one among
them, the catalog of the files of a directory, and the history of the disk. A handle that a call has left
in a place where it cannot read or write is one of the catalog's `astray` ones; the specification knows
these too (`FlatFiles.Strays`) and says what they are still good for (`FlatFiles.Recovers`).

A `Volume` whose card is `reliable` never fails on a block it has. Without that promise any single card
operation may fail; what is stated about single block writes holds on such cards too.

The invariant of the driver is `Folders.CatalogOk`. It asks for what the code itself relies on: two
tables that agree, at most 64 sectors to a cluster, free table entries that name existing clusters,
chains that are terminated, pairwise disjoint and as long as the recorded sizes need, no used entry that
belongs to nothing, a directory with nothing but free entries behind its first free one, of which the
root directory has at least one, files with a name of their own, and at most one descriptor on each file.
`Formatting.EmptyRootAtRest` and `Formatting.BlankVolume` give volumes on which it holds. `FileSystem.Valid`
adds that a valid cache tag means a cache that equals the block on the card.

## Where the code and its promises part

* `fat_truncate` with the position at 0 returns before it resets the fill of the last cluster
  (lib/fat/fat.c:662-669). `Truncation.TruncateFile` says that the descriptor is consistent afterwards
  if and only if the position is not 0 or the file was empty; `FileIO.StaleFill` shows that whatever is
  written next is then not recorded in the size in full, and that a read finds bytes in the empty file;
  `FileIO.StaleFillExample` gives numbers. Closing the handle is right: `Conservation.EmptiedAndClosed`.
* `fat_seek` to a cluster boundary in the middle of a file stops behind the last block of the previous
  cluster (lib/fat/fat.c:738). `Seeking.SeekTo` says that the position is consistent if and only if the
  offset is no such boundary. `Seeking.PastClusterBlock` says that the block used from there is the file's
  next one if and only if the next cluster of the chain is the next one on the card. Even then the end of
  the file is not seen: by `Seeking.PastClusterExtent` a read takes that block whole and no write raises
  the size. `Seeking.PastClusterExample` gives numbers. Seeking on and cutting the file off there are
  right: `NamedFiles.SeekAndCut`.
* `fat_action` adds length and place in the block in 16 bits (lib/fat/fat.c:560). `FileIO.ExtentGrown`
  says that a write takes what fits the block if and only if that sum, which is formed in the last block
  of the file only, stays below 64 KiB (`Bytes.InRange16`).
* `to_fat_name` keeps the dot in the extension when the base name has more than eight characters
  (lib/fat/name.c:32-42): `Names.LongBase` and `Names.LongBaseExample`. `Names.NameRoundTrip` gives the exact set of strings that survive.
* `include/libsys/fat/fat.h` describes `fat_seek_end` in the words of `fat_truncate`; the code moves the
  position to the end of the file, and so does the model.
* `fat_close` reports success even when the entry could not be written, because the results of the card
  operations are dropped (lib/fat/fat.c:611-613): `FileSystems.CloseDescriptor`.
* A directory that is a chain of clusters is reported full when it has no free entry left, even if it has
  a deleted one (lib/fat/fat.c:293-297): `Entries.SearchMeans`, case `DirFull`. The root directory is never
  reported full, since its search does not stop where its region ends (lib/fat/fat.c:228). It goes on
  through the data area, to the end of the card if nothing stops it: `Directory.FailureOf` and
  `Directory.RootNeverFull`. `Directory.RootRunsOn` shows a new entry going into the first data cluster.
* Listing a chain of clusters that has no free entry does not end with it. Behind the last entry the
  descriptor names the last block again (lib/fat/fat.c:472-489): `Listing.StepEntry`.
* `crc_check_relaxed` is exact for every message of at least one byte, not only for those long enough to
  hold a check sequence: `CrcCheck.CrcCheckRelaxed`.

## Model

| member | source | states |
|---|---|---|
| Sessions.Run | lib/fat/fat.c:417-619 | every run of promised calls - open, create, read, write, seek, truncate, close, on any handles - gives the answers that named byte strings with positions give, leaves the volume standing for the byte strings, names, handles and free clusters that they would leave, and changes no table entry and no block of anything else that is in use |
| Sessions.Call | lib/fat/fat.c:417-619 | one call makes exactly the step of the specification, with its answer, keeps the invariant of the whole driver and leaves everything beside the directory and its files alone |
| Sessions.Reopen | lib/fat/fat.c:417-619 | persistence: closing a file, opening it by its name and reading gives the bytes it held |
| FileSystems.FileSystem.FatRead | lib/fat/fat.c:462-464 | the bytes delivered are those of the file from the position on, up to its end or the length asked for, and end of file is reported if and only if they are fewer; the position moves by as many, the rest of the buffer and the card stay as they are; a handle that is not open gives the error code and nothing happens |
| FileSystems.FileSystem.FatWrite | lib/fat/fat.c:510-512 | the file becomes its old bytes overwritten from the position on with the first r given bytes, r being all of them or as many as the clusters of the file and all free ones hold; at every block write on the way the directory, its other files and all else in use on the volume are intact |
| FileSystems.FileSystem.FatTruncate | lib/fat/fat.c:649-700 | from any position, also 0 and cluster boundaries just sought to, the file keeps exactly the bytes before it and the clusters it no longer needs become free; at every block write on the way the directory, its other files and all else in use on the volume are intact; only a cut to nothing leaves a handle that cannot read or write |
| FileSystems.FileSystem.FatSeek | lib/fat/fat.c:725-753 | the position becomes the offset, or the end of the file when that comes first; only a cluster boundary in the middle of the file leaves a handle that cannot read or write, which the next seek mends; nothing is written |
| FileSystems.FileSystem.FatSeekEnd | lib/fat/fat.c:702-723 | the position becomes the end of the file; nothing is written |
| FileSystems.FileSystem.FatOpenFile | lib/fat/fat.c:417-434 | takes the least free handle, puts it at the beginning of the file of that name, makes an empty file where there is none and creation is asked for, and otherwise fails with the code for no handle, an existing or a missing file or a full directory, leaving the handle free; at most one block is written and no handle in use is touched |
| NamedFiles.OpenAnswers | lib/fat/fat.c:237-297 | while a handle is free: a name that is there is opened unless the two low bits of the mode are both set, which is an error; a name that is not there is an error when bit 0 is clear, and otherwise created if the directory has room |
| Entries.ModeBits | include/libsys/fat/fat.h:32-33 | creation is bit 0 of the mode, exclusive creation bits 0 and 1 together |
| FileSystems.FileSystem.FatClose | lib/fat/fat.c:603-619 | the handle is free again and no byte, name or position of any file is lost; afterwards the card holds the descriptor's entry at its place, byte by byte, whether or not it had to be written back |
| FileSystems.CloseDescriptor | lib/fat/fat.c:603-619 | at most one block is written, it is the entry in its place, of which every field is given as bytes of the card, and only a descriptor from before the last mount with a modified entry makes the call fail |
| FileSystems.FileSystem.GetFreeFd | lib/fat/fat.c:114-127 | the first free descriptor is taken and no other one touched, or the error says that there is none |
| FileSystems.FileSystem.constructor | lib/fat/fat.c:26-32 | with all descriptors free the invariant holds on every volume that is at rest |
| NamedFiles.ReopenReads | lib/fat/fat.c:603-619 | the same persistence as a run of the specification; the driver carries such runs out in `Sessions.Run` |
| NamedFiles.SeekAndCut | lib/fat/fat.c:649-753 | seeking to any offset above 0 inside a file and cutting it off there leaves exactly the bytes before the offset and a handle fit for everything; a fact of the specification, which the driver carries out in `Sessions.Run` |
| Conservation.EmptiedAndClosed | lib/fat/fat.c:603-669 | cutting a file to nothing and closing it leaves an empty file and all its clusters free; likewise |
| Conservation.RunConserves | lib/fat/fat.c:371-415 | over any run the free clusters and those that the files need add up to the same number |
| Conservation.ApplyConserves | lib/fat/fat.c:515-700 | each single command moves clusters between the free pool and its file and loses none |
| Refinement.WriteRefines | lib/fat/fat.c:515-600 | a write of one of several open files is an overwrite of its byte string by as many bytes as fit, keeps the heap of clusters in order and no other file changes |
| Refinement.WriteCount | lib/fat/fat.c:515-600 | the number of bytes taken is the minimum of the request and the room in the clusters of the file and the free ones, and free clusters plus clusters of the file are conserved |
| Refinement.ReadRefines | lib/fat/fat.c:515-600 | a read delivers the slice of the byte string behind the position and changes nothing but the position |
| Refinement.SeekRefines | lib/fat/fat.c:702-753 | seeking changes the position of one byte string and nothing else |
| Refinement.CutRefines | lib/fat/fat.c:649-700 | a truncation cuts the byte string and returns exactly the clusters it no longer needs |
| Refinement.ChainLength | lib/fat/fat.c:437-451 | a consistent file has ceil(size / cluster size) clusters |
| System.WriteSound | lib/fat/fat.c:371-415 | growing one file keeps the cluster heap: chains of all files terminated and pairwise disjoint, as long as their sizes need, every used entry accounted for, both tables equal |
| System.CutSound | lib/fat/fat.c:635-647 | so does cutting one, and the free pool gains exactly the clusters cut off |
| System.CutFree | lib/fat/fat.c:635-647 | the number of free entries grows by the number of clusters cut off |
| Isolation.OpenKept | lib/fat/fat.c:515-600 | a file whose table entries and blocks are untouched has a consistent descriptor and the same bytes on the new disk |
| Isolation.GrewKeepsChain | lib/fat/fat.c:371-415 | growth of one chain changes neither entries nor blocks of a disjoint one, and they stay disjoint |
| Isolation.CutKeepsChain | lib/fat/fat.c:635-647 | cutting one chain changes neither entries nor blocks of a disjoint one |
| PowerCuts.WriteSurvives | lib/fat/fat.c:371-415 | if power fails after any block write of a write call, the directory reads the same, every other file of it has its bytes in the clusters that its entry or descriptor names, and whatever else is in use on the volume is as it was |
| PowerCuts.TruncateSurvives | lib/fat/fat.c:649-700 | the same for a truncation |
| Surroundings.RestChain | lib/fat/fat.c:371-415 | what is said of the surroundings means that every chain of theirs, of a directory or of a file in one, keeps its entries and its blocks |
| Surroundings.RestGrew | lib/fat/fat.c:371-415 | growing and overwriting a file changes no table entry and no block of anything beside the directory and its files |
| Surroundings.RestCrash | lib/fat/fat.c:382-407 | nor does any state that a power cut in the middle can leave |
| Surroundings.RestCrashCut | lib/fat/fat.c:635-647 | nor does any state on the way of a truncation |
| Surroundings.RestStored | lib/fat/fat.c:262-265 | nor does storing an entry of the directory |
| PowerCuts.SurvivorReadable | lib/fat/fat.c:437-451 | after such a cut every other file that was closed is found through its entry with all its bytes |
| Interruption.WriteInterrupted | lib/fat/fat.c:371-415 | every disk state on the way of a write leaves all other open files consistent, with their bytes |
| Interruption.CutInterrupted | lib/fat/fat.c:635-647 | every disk state on the way of a truncation does |
| BlockCache.Volume.Cache | lib/fat/fat.c:183-195 | success means that the tag and the cache are those of the block asked for; after a failed read the tag is invalid; a valid tag always means that the cache equals the block |
| BlockCache.Volume.FlushCache | lib/fat/fat.c:197-206 | the cached block goes to the address of its tag, and to none when the tag is invalid; a failed write leaves the disk alone |
| FatTable.ReadFatEntry | lib/fat/fat.c:335-346 | the entry of the first table, 0 only for a free entry or a failed card; on the card it is two bytes, the low one first |
| Layout.FatInBytes | lib/fat/fat.c:335-346 | entry n of a table reads w if and only if bytes 2 (n mod 256) and the next of its sector n / 256 are the low and the high byte of w |
| FatTable.ChainInBytes | lib/fat/fat.c:335-346 | bytes 03 00 FF FF at entries 2 and 3 of the first table make a file of the clusters 2 and 3 |
| FatTable.WriteFatEntry | lib/fat/fat.c:348-368 | the entry is set in the first table and then in the second, in two block writes, and nothing else changes, wherever the card gives up; in the end both tables hold its two bytes, the low one first |
| FatTable.StoreMirrored | lib/fat/fat.c:382-406 | re-tagging the cached sector to the other table and writing it there keeps cache and disk coherent and, on mirrored tables, makes them equal again |
| FatTable.AllocCluster | lib/fat/fat.c:371-415 | the least free entry of the table is taken, marked as an end in both tables and then linked below its parent in both, in this order of block writes; no entry is taken when none is free |
| FatTable.FreeClusterChain | lib/fat/fat.c:635-647 | exactly the entries of the chain become free in both tables, from its head on; the loop terminates |
| FatTable.FindParentCluster | lib/fat/fat.c:621-633 | the cluster before the given one on the chain, and an error just when it is not on the chain behind its head |
| Chains.SharedTail | lib/fat/fat.c:635-647 | two chains that meet in a cluster are equal from there on |
| Chains.ChainAcyclic | lib/fat/fat.c:635-647 | a terminated chain visits no cluster twice, which is why the loops over chains end |
| Chains.ChainShort | lib/fat/fat.c:621-633 | a chain is no longer than the table |
| Chains.ChainUnique | lib/fat/fat.c:635-647 | the first cluster determines the chain |
| Chains.AllocExtends | lib/fat/fat.c:382-407 | taking a free cluster and linking it below the last one appends it to the chain |
| Chains.CutLeavesPrefix | lib/fat/fat.c:679-690 | ending a chain early and freeing the rest leaves its prefix as a terminated chain |
| Chains.CutAt | lib/fat/fat.c:679-690 | entry by entry: the clusters cut off are free, the last one kept ends the chain, everything else is unchanged |
| Growth.GrowChain | lib/fat/fat.c:371-415 | any number of first-fit allocations leaves a terminated chain |
| Growth.GrowEntry | lib/fat/fat.c:371-415 | they turn free entries into used ones and otherwise change only the entry that ended the chain |
| Growth.GrewToKeeps | lib/fat/fat.c:371-415 | a chain disjoint from the growing one stays a terminated chain, disjoint from it |
| Growth.GrewToFree | lib/fat/fat.c:371-415 | free entries plus clusters of the chain are conserved |
| Growth.CrashTableMeaning | lib/fat/fat.c:382-407 | in a table left by interrupted growth every other chain is intact, the growing chain is terminated and starts with all its old clusters, and at most one cluster is lost |
| Writing.AllocCrashSafe | lib/fat/fat.c:382-407 | after each block write of an allocation both tables are such tables and no block outside them has changed |
| Writing.OtherFileBlocks | lib/fat/fat.c:515-600 | no block of a file with a disjoint chain is among those a write may change |
| Writing.GrewTrans | lib/fat/fat.c:515-600 | two stretches of a write make one: same first-fit order, same limits on what changes |
| Content.DataWrite | lib/fat/fat.c:577-586 | storing bytes in one block of a list of distinct blocks overwrites exactly that stretch of the bytes they hold |
| Content.ChainBlocksDistinct | lib/fat/fat.c:479-480 | distinct clusters have distinct blocks |
| FileSteps.NewCluster | lib/fat/fat.c:522-552 | a cluster taken for a full or empty file extends its chain, changes none of its bytes and leaves a position to write at |
| FileSteps.ChunkReached | lib/fat/fat.c:577-594 | a chunk stored in the current block is an overwrite of the file at the position, and moving on leaves a consistent descriptor |
| FileIO.WriteFile | lib/fat/fat.c:515-600 | the file becomes its old bytes overwritten with the first r bytes; r is less than asked for only when no cluster is free and the position is behind a full last cluster; every block write on the way leaves a state of interrupted growth, also on a failing card; asked for lengths whose 16-bit sums stay in range |
| FileIO.ReadFile | lib/fat/fat.c:515-600 | r is the minimum of the length and what is left of the file, the buffer receives exactly those bytes, the disk is unchanged, and end of file is reported if and only if r is short |
| FileIO.GrowForWrite | lib/fat/fat.c:522-552 | a cluster is taken just when the file has none or its last one is full, and the file's bytes stay the same |
| FileIO.ExtentGrown | lib/fat/fat.c:537-570 | on a consistent descriptor the 16-bit arithmetic of the driver gives the part of the request that fits the block if and only if its sums stay in range, and then raises size and fill to cover it |
| FileIO.ExtentOpen | lib/fat/fat.c:521-574 | on a consistent descriptor the same arithmetic gives for a read the minimum of the request, the rest of the block and the rest of the file |
| FileIO.StaleFill | lib/fat/fat.c:662-669 | after a cut to nothing the first chunk written is recorded in the size in full, and a read finds nothing, if and only if the old fill was 0 |
| FileIO.StaleFillExample | lib/fat/fat.c:662-669 | three bytes written to a file of five that was cut to nothing leave its size at 0, and a read delivers five |
| Position.SeekAdvance | lib/fat/fat.c:466-492 | moving within a block, to the next block, to the next cluster and to the end of a full last cluster keeps the position fields in agreement with the absolute offset |
| Position.SeekBegin | lib/fat/fat.c:495-508 | the position fields of offset 0, for files with and without clusters |
| Position.InitFd | lib/fat/fat.c:437-451 | a descriptor made from a directory entry is consistent, at offset 0, when the chain is as long as the size needs |
| Position.LastLenAgrees | lib/fat/fat.c:439-447 | the fill computed from the low 16 bits of the size by a mask is the number of bytes in the last cluster |
| Truncation.TruncateFile | lib/fat/fat.c:649-700 | from a consistent descriptor or one behind a cluster that is not the last, the chain keeps exactly the clusters that the bytes before the position need, the others become free, the bytes before the position stay; the descriptor is consistent afterwards if and only if the position is not 0 or the file was empty; every block write on the way is safe |
| Truncation.TruncateInside | lib/fat/fat.c:655-699 | with the position inside the file, also on a cluster boundary where the parent has to be looked up, the chain is cut at the right cluster |
| Truncation.KeptClusters | lib/fat/fat.c:657-678 | the clusters kept are ceil(position / cluster size) many |
| Truncation.CutData | lib/fat/fat.c:649-700 | the bytes left are the bytes before the position |
| Truncation.CrashCutKeeps | lib/fat/fat.c:635-647 | no state on the way of a cut touches a chain disjoint from the one being cut |
| Truncation.CutViewsSafe | lib/fat/fat.c:679-690 | as soon as anything has changed, what is to be kept is a terminated chain |
| Seeking.SeekTo | lib/fat/fat.c:725-753 | from anywhere on the chain to the offset, clamped to the end; consistent if and only if the offset is no cluster boundary in the middle of the file; the loop terminates |
| Seeking.SeekEnd | lib/fat/fat.c:702-723 | from anywhere on the chain to the end of the file |
| Seeking.PositionUnique | lib/fat/fat.c:466-508 | seeking agrees with sequential reading: a consistent position is determined by its offset, however it was reached, up to a block address that is not used |
| Seeking.PastClusterBlock | lib/fat/fat.c:738-751 | after a seek to a cluster boundary in the middle the block used next is the file's next one if and only if the chain continues in the adjacent cluster |
| Seeking.PastClusterExtent | lib/fat/fat.c:521-574 | there a read takes the whole block and a write raises no size, wherever the file ends |
| Seeking.PastClusterExample | lib/fat/fat.c:725-753 | a file of 517 bytes in clusters of 512: seek to 512, read 100, and 100 bytes come where 5 are left, out of cluster 3 wherever the second cluster is |
| Seeking.Undrifted | lib/fat/fat.c:466-492 | the position that reading up to that boundary would have reached is consistent |
| Entries.SearchMeans | lib/fat/fat.c:209-299 | the search finds the first live entry with the name before the terminator; it creates only where there is none, in the first deleted entry or else at the terminator; exclusive creation finds nothing; a full directory has no terminator |
| Entries.MeansUnique | lib/fat/fat.c:209-299 | that meaning leaves no choice |
| Entries.CreationKeepsOthers | lib/fat/fat.c:248-262 | creation keeps names unique, the new name is found at the new entry, and every other name is found where it was |
| Entries.EntryStored | lib/fat/fat.c:262-265 | storing an entry in its block changes that entry of the directory and no other |
| Entries.DecodeEncode | include/libsys/fat/fat.h:44-57 | reading an entry that was written gives its fields back |
| Entries.EncodeDecode | include/libsys/fat/fat.h:44-57 | writing an entry that was read gives its bytes back |
| Entries.DecodedBytes | include/libsys/fat/fat.h:44-57 | name, attributes and carried fields are bytes 0 to 10, 11 and 12 to 25; the cluster is bytes 26 and 27 and the size bytes 28 to 31, low bytes first |
| Entries.SplicedBytes | lib/fat/fat.c:610-613 | so they lie on the card when an entry is stored |
| Directory.FindFile | lib/fat/fat.c:209-299 | over the root directory or a chain of clusters, with or without a free entry: success, error code, entry, its recorded address and index and the changed block are those of the search on the list of entries; the bytes on the card there are those of the entry, and a new one has zeroes behind its name; at most one block is written |
| Directory.FindInChain | lib/fat/fat.c:233-292 | following the table cluster by cluster visits the entries of the chain in order |
| Directory.FindInRoot | lib/fat/fat.c:224-292 | counting blocks in groups of a cluster visits the entries from the root directory's first block on in order, up to a free entry or else to the end of the card, which is reported as a broken file system |
| Directory.RootRunsOn | lib/fat/fat.c:228-266 | in a root directory without a free or deleted entry a new entry goes into the first data cluster when that starts with a zero byte |
| Directory.RootNeverFull | lib/fat/fat.c:228-297 | the root directory is never reported full |
| Directory.PlaceEntry | lib/fat/fat.c:248-266 | the new entry goes to the remembered slot, also when that is in an earlier block, else to where the search stands; on the card it is the name and 21 zeroes |
| FolderOpening.Lookup | lib/fat/fat.c:228-292 | among files with names of their own the search finds the file of that name; when there is none it finds nothing, a place for it, or the directory full |
| FolderCreation.CreateKeeps | lib/fat/fat.c:248-289 | a new file is empty, has the name asked for and is open at its beginning; the driver's invariant holds, no other file, entry or handle changes, one reusable or spare entry fewer is left |
| FolderOpening.OpenKeeps | lib/fat/fat.c:417-451 | opening an existing file makes its handle agree with it at offset 0 and changes nothing else |
| FolderSteps.CloseKeeps | lib/fat/fat.c:603-619 | writing the entry back makes it describe the file as its descriptor did; names, bytes and positions of all files stay |
| FolderSteps.CommandKeeps | lib/fat/fat.c:515-753 | a command on one open file leaves directory, other handles and closed files in agreement, also when it leaves its own handle astray |
| FolderSteps.StoreKeepsDir | lib/fat/fat.c:610-613 | storing an entry changes that entry of the directory, no table and no byte of any file |
| Listing.GetNextDirEntry | lib/fat/fat.c:301-332 | the next entry that is not deleted, not part of a long name and has no attribute bit in common with the mask, every entry passed over being one of those, or false at the first free one, for the root directory and for chains |
| Bytes.BitAndBits | lib/fat/fat.c:327 | bitwise and, bit by bit |
| Bytes.BitAndMeets | lib/fat/fat.c:327 | it is not 0 if and only if some bit is set in both numbers |
| Listing.SubdirectoriesMasked | lib/fat/fat.c:327 | the mask 0x10 hides an entry if and only if bit 4 of its attributes is set |
| Listing.ListAll | lib/fat/fat.c:301-332 | asking until the answer is false lists exactly the visible entries in use, in order |
| Listing.ListedMeans | lib/fat/fat.c:301-332 | that listing has every visible entry before the terminator once, in increasing order, and no other |
| Listing.WalkersAgree | lib/fat/fat.c:228-332 | the two walkers agree: a name is found at a listed entry, and every listed entry is found by its name |
| Listing.InitRootDir | lib/fat/fat.c:453-460 | the descriptor stands before the first entry of the root directory |
| Listing.StepEntry | lib/fat/fat.c:310-317 | the entry under the position is delivered and the position moves behind it; behind the last entry of a chain the descriptor names the chain's last block again |
| Paths.Walk | lib/fat/path.c:31-49 | the descriptor's own entry serving as directory and as result, the walk equals looking the parts up one after the other; at most one block is written, and only when the last part is created |
| Paths.FindPath | lib/fat/path.c:19-51 | an absolute path gives a handle on what its parts lead to; otherwise the handle is free again, the disk unchanged, and the error is that of a relative path, else of having no handle, else of the part that failed; handles in use are untouched |
| Paths.FatOpenPath | lib/fat/path.c:53-76 | the handle stands at the beginning of the root directory if and only if the path has no parts or ends in an entry found there with the directory bit and cluster 0, and else at offset 0 of the chain that the entry names; failures are those of the walk |
| Paths.CopyFirstEntry | lib/fat/path.c:6-17 | the part up to the next slash or the end, with a zero behind it |
| Paths.PartMode | lib/fat/path.c:36-42 | the mode of the call is used for exactly the last part, and only if no slash follows it |
| Paths.SplitPathOf | lib/fat/path.c:31-41 | the parts of a path made of parts, each behind a slash, are those parts |
| Names.ToFatName | lib/fat/name.c:5-43 | the 11-byte field of any string, of which every byte is given by FieldBytes |
| Names.FromFatName | lib/fat/name.c:45-67 | the string of any field, with a terminating zero |
| Names.FieldBytes | lib/fat/name.c:5-43 | byte by byte, for any string: a name that starts with a dot is copied; otherwise up to eight characters before the first dot and up to three from the start of the extension on, the rest spaces |
| Names.LongBase | lib/fat/name.c:32-42 | of a base of more than eight characters eight remain, and the dot becomes the first character of the extension, with two more behind it |
| Names.LongBaseExample | lib/fat/name.c:32-42 | LONGFILENAME.TXT becomes LONGFILE and .TX |
| Names.ExtensionCut | lib/fat/name.c:38-42 | of a longer extension behind a base of at most eight characters the first three remain |
| Names.PrintedBytes | lib/fat/name.c:45-67 | byte by byte, for any field: the characters before the first space of eight, and unless the ninth byte is a space a dot and those before the first space of the last three |
| Names.NameRoundTrip | lib/fat/name.c:5-67 | printing the field of a string gives the string back if and only if it is free of spaces and is a base of 1 to 8 characters with an optional dot and 1 to 3 more, or at most 8 characters of which the first may be a dot, or, oddly, 8 characters that start with a dot and are followed by four dots |
| Names.FatNameInjective | lib/fat/name.c:5-43 | different names of that shape have different fields |
| Names.FieldRoundTrip | lib/fat/name.c:5-67 | a field of a base and an extension, each filled up with spaces, is the field of its printed form |
| Names.DotEntries | lib/fat/name.c:7-20 | the entries "." and ".." survive the round trip |
| CrcTableProof.TableEntry | lib/crc.asm:522-591 | every entry of the four tables is the remainder of its index after eight steps of division |
| CrcRoutines.CrcUpdate | lib/crc.asm:268-399 | the loop over four state bytes computes the step-by-step update of the whole message |
| CrcRoutines.CrcUpdateZeroes | lib/crc.asm:403-520 | the same as updating by that many zero bytes |
| CrcRoutines.UpdateConcat | lib/crc.asm:278-369 | a message may be processed in pieces |
| CrcAlgebra.UpdateIsSerial | lib/crc.asm:278-369 | the table-driven update is the division of the message bit by bit, lowest bit of each byte first, by the reflected polynomial 0xEDB88320 |
| CrcAlgebra.UpdateIsRemainder | lib/crc.asm:278-369 | the same, byte by byte |
| CrcAlgebra.RemainderLinear | lib/crc.asm:278-369 | it is linear in state and message together |
| CrcAlgebra.RemainderInjective | lib/crc.asm:278-369 | no message byte loses information about the state |
| CrcAlgebra.WordInjective | lib/crc.asm:278-369 | from a given state four bytes lead to different states for different values |
| CrcAlgebra.BurstDetected | lib/crc.asm:278-369 | two messages that differ only within four consecutive bytes have different check sequences |
| Crc.OctetSplit | lib/crc.asm:311-353 | eight steps of division shift three bytes down and divide the lowest one, which is what a table look-up does |
| CrcCheck.ResidueExactly | lib/crc.asm:146-171 | after a message and four more bytes the state is the residue if and only if those are the complemented state after the message, low byte first |
| CrcCheck.SoundExactly | lib/crc.asm:146-171 | the residue tells frames with a correct check sequence exactly, whatever their length |
| CrcCheck.CrcCheckRelaxed | lib/crc.asm:21-256 | true if and only if the whole, or all but its last byte, ends in its correct check sequence, for every length from 1 on |
| Ethernet.BitmixIs | lib/bitmix.asm:97-117 | the table reverses the bits of each half byte |
| Ethernet.BitmixTwice | lib/bitmix.asm:97-117 | it is its own inverse and commutes with complement |
| Ethernet.BitmixMemcpy | lib/bitmix.asm:15-95 | the destination receives the bytes through the table and nothing else changes |
| Ethernet.FrameIsSound | lib/eth.c:36-48 | every frame passes the receiver's check, also with a byte read too many, ends in a zero byte, and its payload can be read off |
| Ethernet.Transmitter.EthInit | lib/eth.c:18-23 | preamble in place and the rest of the payload area zero |
| Ethernet.Transmitter.EthTransmit | lib/eth.c:25-50 | whatever the previous frame left behind, the buffer read through the table is preamble, payload, zeroes, adjustment byte and check sequence, and it is ready for the next frame |
| Ethernet.TransmitAll | lib/eth.c:18-50 | over any sequence of frames each one is laid out exactly |

## Left out

- Sessions.Run: speaks of the files of one directory, the root or any other, beside which it only says that nothing changes, and of a card that does not fail; requests whose outcome the code does not promise are excluded by `NamedFiles.Promised`: reading and writing through a handle that a seek to an inner cluster boundary or a cut to nothing has left astray, anything but closing after a cut to nothing, writes whose 16-bit sums leave their range, and what is said under `FatOpenFile` and `FatClose` here.
- Sessions.Call: the same.
- FileSystems.FileSystem.FatRead: not through a handle astray; what the code does there is `Seeking.PastClusterExtent` and `FileIO.StaleFill`.
- FileSystems.FileSystem.FatWrite: nor this one, nor a length outside `Bytes.InRange16`.
- FileSystems.FileSystem.FatSeek: not after a cut to nothing.
- FileSystems.FileSystem.FatTruncate: not after a cut to nothing.
- FileSystems.FileSystem.FatOpenFile: opening a file a second time is left out, because two descriptors on one file do not know of each other's changes; so are opening a subdirectory or label as a file, creating a name that starts with the mark of deleted entries, and creating a file in the last free entry of the root directory, after which its search runs on as `Directory.RootRunsOn` shows.
- FileSystems.FileSystem.FatClose: speaks of handles that are open on a file; closing a free handle, which can write an old entry again, is outside the invariant, and so is closing a directory; the code for any descriptor is `FileSystems.CloseDescriptor`.
- Paths.FatOpenPath: the chain that the entry at the end of the path starts is given by the caller, since a path may lead into any directory of the volume; an entry whose chain is malformed is outside the model.
- Paths.Walk: the directory entry is passed by value where the code passes the address of the entry that the call overwrites; the code reads it only before it writes it (lib/fat/fat.c:212-227). A part of more than 12 characters overruns the buffer it is copied to (lib/fat/path.c:6-17); such paths are outside the model, and so are walks on a volume whose root directory has no free entry.
- Paths.FindPath: paths with such a part are outside the model.
- FileIO.WriteFile: `fat_action` serves reads and writes in one loop; the model has one loop for each, with the branches that apply. Outside `Bytes.InRange16` the code copies more than a block into the cache, past its end; memory behind the cache is not modelled, only that the chunk is wrong (`FileIO.ExtentGrown`).
- FileSystems.FileSystem.GetDesc: the code does not check that a handle is below sixteen; the model takes that from its callers.
- Listing.GetNextDirEntry: takes the descriptor; looking a handle up is `FileSystems.FileSystem.GetDesc`. It asks for a visible or a free entry ahead; without one the listing leaves the directory, as `Listing.StepEntry` shows for chains.
- Listing.ListAll: asks for a free entry ahead, for the same reason.
- BlockCache.Volume.CardWriteBlock: a failing write leaves the block as it was; a block half written is outside the model.
- `fat_mount`: parsing the boot sector, and marking descriptors stale; the model starts from a layout as two tables give it (`Layout.WellFormed`), and never uses the cluster count, as the driver does not either.
- Clusters of 128 sectors, whose size does not fit 16 bits, and volumes with a single table.
- Time stamps, attributes other than the directory bit, long names as such, labels: carried along as bytes.
- `fat_open_dir`, `fat_change_dir`, `fat_tell`, `fat_get_size`, `fat_get_dir_entry`: they only pass results on.
- Switching the card's power off in `set_fat_error`.
- `lib/card.asm`: the protocol of the card; here it is blocks that can be read and written, or an error.
- The instruction set in `lib/crc.asm` and `lib/bitmix.asm`: registers, flags and addresses; the loops and tables are modelled.
- Starting the transmission in `eth_transmit`, and the variant without the zero byte at the end, which is compiled out.
- `lib/ps2.c`, `lib/ps2keyboard.c`, `lib/vga.c`, the progress bar, error messages, `exec` and the loaders.
