# Storage stack and disc ripping, modelled and proved in Dafny

The repository rips PlayStation 2 discs to images and prepares disks for them. Underneath lies FATtools, a storage
stack of stateful objects: a FAT driver with cluster-chain files, VHD images, a write-back sector cache, formatters.
This project models that stack as classes with the same fields and loops and proves that each layer behaves like a
flat array of bytes, that its hidden structure is never lost, and how the sizes the formatters choose agree with what
the drivers compute later. Above it come the rip loops and the way from a raw disc to an ISO.

The layers, and the files that hold them:

- **FAT table and allocator** - `FatTable` (packed slots, two copies, the free-space scan), `FatBytes` (the table byte by
  byte), `FatChains` (run lists, free-run maps, chains), `FatDriver` (class `Fat`), `FatSample` (small tables in bytes),
  `FatVolume` and `FatRuns` (any sequence of operations keeps every cluster free or in exactly one chain).
- **Cluster-chain files** - `ClusterBytes` (bytes of a chain on the volume), `ChainFile` (class `Chain`),
  `ChainClients` (truncation and appending as their callers see them), `ChainRuns` (any history over several open files
  of a volume against growable arrays with a position).
- **VHD images** - `Bits`, `BlockBitmap` (module `BlockBitmaps`), `VhdFooter` (the footer, its copy and its checksum),
  `VhdLayers` (what a line of images shows), `VhdBat` (block table and self-test), `VhdSteps`, `VhdReads`, `VhdWrites`,
  `VhdPlaces` (the disk read straight from the bytes of its containers), `VhdMerge`, `VhdExpand`, `FileMove`, `VhdImage`
  (class `Image`), `VhdNew` (fresh containers), `VhdRuns` (any history against a flat array), `VhdUnchecked` (containers
  without their checksum). The format is Microsoft's Virtual Hard Disk Image Format Specification, sections "Dynamic Disk
  Header Format", "Block Allocation Table and Data Blocks" and "Implementing a Differencing Hard Disk".
- **Sector cache** - `CacheState` (the invariant and each step on values), `CacheAim` and `CacheView` (where a write
  goes, and when that is the position), `DiskCache` (class `Disk`), `FlatDisk` (a flat array with a position and what may
  be asked of it, and class `DiskStream`, on which the FAT driver and the chain files run), `DiskRuns` (any history, and
  when the cached disk is that array through it).
- **Formatting** - `FatFormat`, `ExfatFormat`, `DiskGeometry` (CHS conversions, disk geometry, class `Mbr`).
- **Bit-level pieces** - `Crc32c` (section 12.1 of RFC 3720), `LongNames`.
- **Ripping** - `CdSector`, `Ripper`, `Optical`.

How to read the contracts. A class has a `Valid()` predicate and an abstract value: `Fat.T()` the table, `Chain.State()`
chain, bytes, size and position, `Image.Line().View()` the contents of the virtual disk, `Disk.disk` the flat disk the
cache stands for. Methods tie the new value to the old; lemmas on the values say what that means. Ghost parameters,
such as the chain a walk follows, only name what the proof talks about. Formats and sizes are stated a second time in
plain bytes and numbers, with the offsets written out, and each operation is tied to them: `FatBytes.Holds`,
`VhdPlaces.Straight`, `VhdExpand.TitledAs`, `CdSector.DataByte`, `FatFormat.Within`, `ExfatFormat.InNumbers`,
`LongNames.UnitRead`.

Where the code does something other than intended, the code is kept and the exact condition is proved:

- The free-space scan masks the wrong nibbles of 12-bit tables (`FatTable.Geometry.ScanExact`, `FatTable.ScanLosesCluster`).
- `BAT._isvalid` overwrites its verdict, so that a duplicate passes (`VhdBat.RejectsExactly`, `VhdBat.DuplicateAccepted`);
  its test for blocks over the footer repeats part of the test before it and is never reached.
- A FAT32 chain not ended by 0x0FFFFFF8 but, as other systems do, by 0x0FFFFFFF is mapped with the mark as one more
  run, so that what is appended is linked to nothing (`ChainFile.Chain.GetFrags`, `ChainFile.ForeignReached`,
  `ChainClients.AppendToForeign`); below the eight marks known, a chain counts one cluster too many, and freeing it puts
  the mark into the free map (`FatDriver.Fat.Count`, `FatDriver.Fat.FreeChain`, `FatDriver.LowMarkReached`).
- A file may be sought to before its start; a read there returns bytes from elsewhere (`ChainFile.Chain.SeekBelow`,
  `ChainFile.Chain.ReadBelow`).
- `ftruncate` to a whole number of clusters at or past the end frees a negative number (`ChainClients.Ftruncate`,
  `ChainClients.CutToItself`, `ChainClients.TruncAtEnd`).
- A VHD opens with a wrong checksum in its footers. The first block added packs the trailing one only, so that the copies
  differ and it does not open any more; a merge stops there (`VhdFooter.TwinsExactly`, `VhdWrites.GrownOpens`,
  `VhdMerge.StuckHere`, `VhdUnchecked.NotAgain`, `VhdUnchecked.MergeStops`).
- A zero-size aligned `disk.read` registers a slot it never fills, or one past the buffer (`CacheState.UnfilledExactly`,
  `CacheState.UnfilledLosesData`, `CacheState.UnfilledPastBuffer`, `DiskCache.ReadsNothing`).
- A write after a read without a seek goes where sector, offset and file position still aim: to the position only after
  a read of nothing, or of more than one sector from boundary to boundary (`CacheView.LandsExactly`,
  `DiskCache.HitsAfterRead`, `DiskCache.Disk.StaleWrite`, `DiskCache.Misplaced`).
- A flush leaves the file behind the last dirty sector. A write straight after it fills its slot from there, so that the
  rest of its sector is lost, or goes there, past the cache (`CacheView.LandsFlushed`, `DiskRuns.ShortTwice`,
  `DiskRuns.FlushLosesBytes`).
- `filemove` at the very end of a file ignores the fill byte (`FileMove.FillAtEnd`).
- The FAT12 size floors half a byte (`FatFormat.SecondCopy`, `FatFormat.HalfByteReached`); a FAT32 record with root
  entries gives back another cluster count (`FatFormat.BootClusters`, `FatFormat.RootCounted`); a volume smaller than its
  reserved area and root is listed with a negative count for FAT12, and for FAT32 unless few clusters are banned there
  (`FatFormat.FitWithoutRoom`, `FatFormat.WithoutRoomReached`); a possible format may not fit the fields of its record
  (`FatFormat.RecordPacks`, `FatFormat.UnpackedReached`).
- exFAT makes no room for a second FAT and counts padding bytes as sectors (`ExfatFormat.FatsApartExactly`,
  `ExfatFormat.SecondFatInHeap`, `ExfatFormat.HeapInsideExactly`, `ExfatFormat.HeapPastEnd`).
- `get_geometry` never leaves its outer loop early, so that the track size is always the last one tried, 63
  (`DiskGeometry.GetGeometry`).
- `Chain.write` documents that the tip of new clusters is blanked; on a chain of one run it returns before
  (src/FATtools/FAT.py:811-817; `ChainFile.Chain.Write`, `ChainFile.TipExactly`, `ChainFile.TipReached`).

## Model

| member | source | states |
|---|---|---|
| FatTable.Put12 | src/FATtools/FAT.py:330-337 | packing a 12-bit value into the word its slot shares keeps the nibble of the neighbouring slot, for odd and even slots |
| FatTable.Geometry.SetEntry | src/FATtools/FAT.py:302-341 | storing a slot of 12, 16 or 32 bits changes that entry and no other, and both copies stay identical |
| FatTable.Geometry.SetEntry12 | src/FATtools/FAT.py:326-337 | 12-bit slots that share a byte: the entry written is the one asked for, every other entry keeps its value |
| FatTable.Geometry.SetRun | src/FATtools/FAT.py:554-568 | the one packed write per copy that marks a run stores every entry of the run and no other, in both copies |
| FatTable.Geometry.TableFrame | src/FATtools/FAT.py:276-300 | entries depend on the bytes of the first copy only, so writing anything else leaves the table as it is |
| FatTable.Geometry.ScanExact | src/FATtools/FAT.py:433-465 | the scan tells free from used clusters, for every cluster, if and only if the width is 16 or 32, or every 12-bit slot whose own byte is zero shares a byte with both or neither of its nibbles set |
| FatTable.Geometry.ScanExact12 | src/FATtools/FAT.py:450-459 | the same cluster by cluster: the verdict on a cluster is right exactly when its own byte is not zero, or the shared byte has both or neither of its nibbles set |
| FatTable.ScanLosesCluster | src/FATtools/FAT.py:450-459 | a concrete 12-bit table in which the scan takes a cluster in use for free |
| FatBytes.EntryBytes | src/FATtools/FAT.py:276-300 | the entry of cluster c is the number in bytes 4c to 4c + 3 of the copy, the low one first, or in 2c and 2c + 1, or in twelve bits from 3c/2 on |
| FatBytes.CopyBytes | src/FATtools/FAT.py:302-341 | the second copy has it in the same bytes |
| FatBytes.Numbers | src/FATtools/FAT.py:240-264 | in numbers, for each width: how many clusters the driver can number, which indexes it takes, from where on values are reserved, and which end a chain |
| FatDriver.Fat.constructor | src/FATtools/FAT.py:231-271 | the driver opens with the counter equal to the mapped free space, whatever the second copy holds; whenever the scan sees the truth the map is exactly the clusters whose entry is zero, and the driver is consistent if and only if the copies are alike |
| FatDriver.Fat.MapFreeSpace | src/FATtools/FAT.py:411-474 | whatever the page boundaries, the runs found are disjoint, cover exactly the slots the scan takes for free, and their lengths add up to the counter |
| FatDriver.Fat.ScanPage | src/FATtools/FAT.py:433-469 | one page: exactly its free slots are added to the map as runs |
| FatDriver.Fat.Get | src/FATtools/FAT.py:276-300 | an entry is the number in its two or four bytes of the first copy, the low byte first, or in its twelve bits of three; the memo changes nothing; an unusable index reads as the end mark |
| FatDriver.Fat.Set | src/FATtools/FAT.py:302-341 | those bytes of both copies hold the value, no other entry changes and no byte outside the two copies; unusable indexes and values are ignored |
| FatDriver.Fat.Count | src/FATtools/FAT.py:359-365 | the number of clusters of a chain and its last cluster are right if and only if its end mark is one of the eight the driver knows; below them it counts the mark as one more cluster; the walk ends |
| FatDriver.LowMarkReached | src/FATtools/FAT.py:231-264 | a 16-bit chain that ends in 0xFFF8 is such a one; 0xFFFE is taken for two clusters |
| FatSample.ChainRead | src/FATtools/FAT.py:276-365 | a table of each width given in bytes: the entry is read and the chain of two clusters followed to its end |
| FatSample.AppendOne | src/FATtools/FAT.py:570-604 | one cluster appended to it, and the bytes of both copies |
| FatDriver.Fat.CountRun | src/FATtools/FAT.py:374-394 | for a chain that ends in any mark: the length of the longest contiguous run at its start and the entry that leaves it; a mark below the eight known is a run of one cluster, or two if the next number is the mark the driver writes; the walk ends |
| FatDriver.Fat.FindFree | src/FATtools/FAT.py:476-490 | while the counter is not exceeded there is a mapped run: it returns up to count clusters, all free until now, and takes exactly these out of the map |
| FatDriver.Fat.MapCompact | src/FATtools/FAT.py:492-518 | the free set is the same, no two runs are adjacent any more, and the passes come to an end |
| FatDriver.Fat.CompactPass | src/FATtools/FAT.py:498-507 | one pass covers the same clusters, leaves no two runs adjacent, and shrinks the map unless it changes nothing |
| FatDriver.Fat.MergeOnto | src/FATtools/FAT.py:499-507 | merging the runs that follow a run directly is the same whether done entry by entry or as the recursive definition says |
| FatDriver.Fat.MarkRun | src/FATtools/FAT.py:523-568 | a run is linked, or zeroed and given back to the map: the bytes of each of its slots, in both copies, hold the next cluster, the end mark or zero; no other entry changes |
| FatDriver.Fat.Alloc | src/FATtools/FAT.py:570-604 | fails, changing nothing, exactly when the counter is below count; else appends exactly count formerly free clusters to the chain, whose run list stays equal to it, and every other entry is as before; behind a run list that ends outside the table it links them to nothing |
| FatDriver.Fat.FreeChain | src/FATtools/FAT.py:606-631 | whatever mark ends it: zeroes exactly the clusters of the chain, which go back to the map; the counter rises by their number if the mark is one of the eight known, and else by one or two more, with the mark in the map as a run of that length |
| FatChains.ChainDistinct | src/FATtools/FAT.py:351-365 | a chain that ends in the end mark visits no cluster twice |
| FatChains.SharedSuffix | src/FATtools/FAT.py:351-365 | two chains that share a cluster are the same from there on |
| FatChains.GrownFree | src/FATtools/FAT.py:570-604 | after an allocation the free clusters are again exactly those with a zero entry |
| FatChains.RecordBehind | src/FATtools/FAT.py:593-598 | a run of free clusters enters a run list in the same way whatever stray runs the list starts with |
| FatChains.Unlinked | src/FATtools/FAT.py:588-602 | clusters linked behind nothing are a chain of their own, and no other chain gets longer |
| FatChains.VisitRun | src/FATtools/FAT.py:498-507 | visiting one run keeps the invariant of a compaction pass, also for a run that was already absorbed |
| FatChains.TakeKeepsApart | src/FATtools/FAT.py:476-490 | taking clusters off the front of a run makes no two runs adjacent |
| FatVolume.StepKeeps | src/FATtools/FAT.py:570-631 | creating, growing, releasing or truncating a file keeps every cluster free or in exactly one ending chain |
| FatVolume.RunKeeps | src/FATtools/FAT.py:570-631 | so does any sequence of these |
| FatVolume.StepFrame | src/FATtools/FAT.py:570-631 | an operation on one file leaves the chain of every other as it was |
| FatVolume.ExactlyOnePlace | src/FATtools/FAT.py:351-394 | on a partitioned volume a cluster is free or has exactly one place in exactly one chain |
| FatRuns.ExtendKeeps | src/FATtools/FAT.py:570-604 | what the driver ensures about an allocation is the volume step that keeps the partition |
| FatRuns.RemoveKeeps | src/FATtools/FAT.py:606-631 | what the driver ensures about a release is the volume step that keeps the partition |
| FatRuns.Replay | src/FATtools/FAT.py:570-631 | after any commands to the driver, failed ones included, free space and run lists share the clusters out, and each run list is a chain of the table |
| ClusterBytes.LogicalAt | src/FATtools/FAT.py:745-759 | a file has as many bytes as its clusters, and byte p is the byte of the volume at data area + (cs[p / cluster] - 2) * cluster + p % cluster |
| ClusterBytes.ReadChunk | src/FATtools/FAT.py:782-792 | reading contiguous clusters in one go gives consecutive bytes of the file |
| ClusterBytes.WriteChunk | src/FATtools/FAT.py:811-828 | writing contiguous clusters in one go splices the bytes into the file and touches no other cluster |
| ClusterBytes.OtherChainKept | src/FATtools/FAT.py:795-835 | a write that touches the clusters of one chain only leaves every byte of every other chain |
| ChainFile.Chain.constructor | src/FATtools/FAT.py:636-663 | opens with sizes and position of the chain the table holds, whatever mark ends it, one cluster too large below the eight marks known; its run list is the chain if and only if that ends in the very mark this driver writes |
| ChainFile.Chain.GetFrags | src/FATtools/FAT.py:668-679 | the run list mapped from the first cluster is exactly the chain, followed by the end mark as a run of one cluster, or two, when it is another than the driver writes |
| ChainFile.ForeignOnly32 | src/FATtools/FAT.py:240-260 | among the eight marks known only a table of 32-bit slots can hold such a mark |
| ChainFile.ForeignReached | src/FATtools/FAT.py:240-260 | a FAT32 chain that ends in 0x0FFFFFFF has one |
| ChainFile.Chain.Extend | src/FATtools/FAT.py:681-691 | appends the clusters asked for, or fails when the counter is below; run list, first cluster and sizes follow |
| ChainFile.Chain.MaxRun4Len | src/FATtools/FAT.py:693-722 | the chunk it allows never crosses the end of a contiguous run |
| ChainFile.Chain.Seek | src/FATtools/FAT.py:729-763 | the position reached, growth of a writable chain by exactly the clusters missing, or failure when fewer are counted free, the stream on its byte; the data of no cluster changes |
| ChainFile.Chain.SeekBelow | src/FATtools/FAT.py:729-763 | a seek to before the start is not refused: position and cluster are negative, the offset is not, no run is found, and nothing moves |
| ChainFile.Chain.ReadBelow | src/FATtools/FAT.py:765-783 | a read from there in a file of one run returns what the volume has where the stream happens to stand, and moves the position as if it had been the file |
| ChainFile.Chain.Read | src/FATtools/FAT.py:765-793 | exactly the bytes of the file from the position to the size asked for or the end of the file |
| ChainFile.Chain.Write | src/FATtools/FAT.py:795-835 | succeeds exactly when the clusters missing are counted free; then the file is the old bytes with s spliced in at the position, the tip of new clusters zeroed, the size the highest position written; else nothing changes; the counter falls by the clusters appended; no byte of another cluster changes either way |
| ChainFile.TipExactly | src/FATtools/FAT.py:795-835 | behind what a write stored the last cluster is zero if and only if the tip was blanked, which a chain of one run never is, or was zero before |
| ChainFile.TipReached | src/FATtools/FAT.py:811-817 | a concrete write that leaves the old bytes of its cluster behind it |
| ChainFile.Chain.Blank | src/FATtools/FAT.py:830-835 | the rest of the last cluster is zeroed, nothing else |
| ChainFile.Chain.Trunc | src/FATtools/FAT.py:837-879 | keeps exactly the first pos//cluster + 1 clusters with their bytes, ends the chain there, frees exactly the rest, leaves the counter; does nothing when there is no rest |
| ChainFile.Chain.FreeTail | src/FATtools/FAT.py:850-873 | for every run structure, popping runs from the end frees exactly the last n clusters and leaves the run list equal to the chain on disk |
| ChainFile.ClusterOf | src/FATtools/FAT.py:749-762 | the run list and a cluster number of the chain give the cluster on the volume |
| ChainClients.WriteBeside | src/FATtools/FAT.py:795-835 | writing to one file leaves chain, bytes, size and position of every other open file |
| ChainClients.TruncBeside | src/FATtools/FAT.py:837-879 | truncating one file leaves chain, bytes, size and position of every other open file |
| ChainClients.WriteThenRead | src/FATtools/FAT.py:765-835 | what was just written is read back |
| ChainClients.ForeignRuns | src/FATtools/FAT.py:668-679 | the run list of a chain that does not end in the mark the driver writes ends outside the table, and no key of it is free |
| ChainClients.AppendToForeign | src/FATtools/FAT.py:681-691 | clusters appended to a file whose chain ends in another mark become a chain nothing leads to; on the volume the file stays as it was |
| ChainClients.Ftruncate | src/FATtools/FAT.py:999-1009 | the file gets the size asked for and keeps its bytes, with exactly length//cluster + 1 clusters if the rest is freed and just enough if not; the count to free is below zero if and only if length is a whole number of clusters no fewer than the file had |
| ChainClients.CutToItself | src/FATtools/FAT.py:837-842 | so cutting any file to the clusters it has asks for -1 to be freed |
| ChainClients.TruncAtEnd | src/FATtools/FAT.py:837-878 | what then happens, by slot width and place of the last run: an exception or a loop without end, with the size one cluster too large and the last run gone, or at the end of the table the next cluster made part of the file, which is no chain any more |
| ChainRuns.ReadsText | src/FATtools/FAT.py:765-793 | a read gives the contents of the file from the position on |
| ChainRuns.WritesText | src/FATtools/FAT.py:795-835 | a write no further than the end of the contents overwrites or extends them, or changes nothing when it finds too few free clusters, whatever clusters it takes and whatever was in them |
| ChainRuns.FilesGrown | src/FATtools/FAT.py:729-835 | a seek or write to one open file leaves every other open file as it was and the clusters shared out |
| ChainRuns.FilesCut | src/FATtools/FAT.py:837-879 | so does a truncation |
| ChainRuns.Run | src/FATtools/FAT.py:729-879 | one seek, read, write or truncation on one of several open files answers and leaves all of them as growable arrays of bytes would; the tip of new clusters is zeroed exactly if the file has more than one fragment |
| ChainRuns.Replay | src/FATtools/FAT.py:729-879 | so does any history of them over any number of open files on one volume, seeks past the end, sparse writes and failures included, whatever the fragmentation; free space, their chains and those of all other files share the clusters out throughout |
| Bits.AndNotBit | src/FATtools/vhdutils.py:331-337 | bitwise clear of a mask, bit by bit, on unbounded integers |
| BlockBitmaps.ProbeReads | src/FATtools/vhdutils.py:314-317 | the probe mask reads exactly the bit of the sector, most or least significant bit first |
| BlockBitmaps.MaskedByte | src/FATtools/vhdutils.py:324-350 | the mask of a partial byte sets or clears exactly its sectors |
| BlockBitmaps.BlockBitmap.Store | src/FATtools/vhdutils.py:319-355 | for every start and length exactly the bits [sector, sector+length) are set or cleared |
| BlockBitmaps.BlockBitmap.Set | src/FATtools/vhdxutils.py:620-659 | the same for the VHDX bitmap, least significant bit first, with its shortcut for one bit that is set already |
| VhdLayers.UnknownIsZero | src/FATtools/vhdutils.py:459-464 | a block that neither the image nor any image it descends from holds reads as zeros |
| VhdBat.Bat.constructor | src/FATtools/vhdutils.py:179-186 | the state of the self-test is its verdict on the table |
| VhdBat.Bat.Get | src/FATtools/vhdutils.py:191-207 | the entry of a block through the memo, negative indexes counting from the end |
| VhdBat.Bat.Set | src/FATtools/vhdutils.py:209-221 | exactly the four bytes of the entry are written, memo and table agree |
| VhdBat.Bat.Scan | src/FATtools/vhdutils.py:235-264 | the walk stops at the first bad entry with the number of unallocated ones before it |
| VhdBat.Bat.SelfTest | src/FATtools/vhdutils.py:223-271 | the result is the verdict function, for every table |
| VhdBat.LaidOutAccepted | src/FATtools/vhdutils.py:223-271 | a container that keeps its layout is never rejected when it is opened again |
| VhdBat.RejectsExactly | src/FATtools/vhdutils.py:223-271 | when the self-test rejects at all: a table longer than the file, or a bad entry at which the counts happen to agree |
| VhdBat.DuplicateAccepted | src/FATtools/vhdutils.py:244-270 | a concrete table with two blocks at one address that passes |
| VhdNew.NewDisk | src/FATtools/vhdutils.py:804-918 | the container that mk_dynamic or mk_diff writes is laid out, its footers alike, and shows zeros, or the parent |
| VhdImage.Image.constructor | src/FATtools/vhdutils.py:360-426 | a laid-out container whose footers are alike opens over its parent and passes the self-test; its geometry is that in bytes 0x30, 0x210, 0x21C and 0x220 of the file |
| VhdPlaces.GeoBytes | src/FATtools/vhdutils.py:366-388 | which bytes of footer and header say disk size, table offset, table length, block size and kind |
| VhdPlaces.BitmapSize | src/FATtools/vhdutils.py:389 | the bitmap has a bit for each sector of the block, in the fewest whole sectors |
| VhdPlaces.PowerBlocks | src/FATtools/vhdutils.py:389 | that is so for every block of 512 times a power of two |
| VhdPlaces.ShowsStraight | src/FATtools/vhdutils.py:474-523 | byte p of the disk, from the bytes of the files alone: of the topmost file whose table has an entry e for block p/block and a mark for the sector, byte 512e + 512((block/512 + 4095)/4096) + p%block, and zero if none has |
| VhdPlaces.ViewStraight | src/FATtools/vhdutils.py:474-523 | so the contents of a line of images are what its files say |
| VhdPlaces.TwoMebibytes | src/FATtools/vhdutils.py:502-505 | a container with a block of 2 MiB in sector 4: the marks begin at byte 2048, the data at byte 2560 |
| VhdImage.Image.Seek | src/FATtools/vhdutils.py:436-449 | the position for each origin, not below zero, and whether it is inside the disk |
| VhdImage.Image.HasBlock | src/FATtools/vhdutils.py:459-464 | true exactly if some image of the line holds the block |
| VhdReads.AbsentRun | src/FATtools/vhdutils.py:490-499 | a stretch of a block the image does not hold is what is underneath |
| VhdReads.FixEnd | src/FATtools/vhdutils.py:504-522 | once every unmarked sector has been replaced, the stretch read is what the disk shows |
| VhdImage.Image.Read | src/FATtools/vhdutils.py:474-523 | any position and size across any blocks, marks and parents: the bytes of the disk, no further than its end, each the byte its place in the files has |
| VhdWrites.ZerosVirtual | src/FATtools/vhdutils.py:602-608 | zeros for a block nobody holds may stay unwritten: the disk already shows them |
| VhdImage.Image.Allocate | src/FATtools/vhdutils.py:609-620 | a block is appended over the footer, the footer, packed anew, after it; exactly that block is held in addition, and the disk shows the same |
| VhdWrites.AppendedDisk | src/FATtools/vhdutils.py:555-562 | appending an empty block keeps the layout (blocks apart, footer last) and what the disk shows |
| VhdSteps.AppendedOpens | src/FATtools/vhdutils.py:555-562 | after that the container opens again if and only if its footer carried its checksum |
| VhdWrites.NeededOne | src/FATtools/vhdutils.py:550-562 | inside one block a write cannot stay virtual if and only if it is not all zeros or an image underneath holds the block |
| VhdWrites.GrownOpens | src/FATtools/vhdutils.py:534-652 | a container that got some blocks opens as before if none of them is new, and else if and only if its footer carried its checksum |
| VhdWrites.ChangedDisk | src/FATtools/vhdutils.py:571-583 | marking sectors and storing bytes keeps the layout and shows exactly the bytes stored |
| VhdImage.Image.Write | src/FATtools/vhdutils.py:534-583 | a dynamic image: the disk, read from its file, shows the bytes written and is otherwise unchanged, the layout is kept; exactly the blocks that get more than zeros are held in addition, and when one of them is new the container opens again if and only if its footer carried its checksum |
| VhdImage.Image.CopySect | src/FATtools/vhdutils.py:628-638 | copying a sector up marks it and no other, and the disk shows the same |
| VhdImage.Image.CopyUp | src/FATtools/vhdutils.py:635-642 | after copying up both ends the write may mark every sector it touches |
| VhdImage.Image.Write1 | src/FATtools/vhdutils.py:585-652 | a differencing image: the disk, read from the files, shows exactly the bytes written and is otherwise unchanged, no file but its own is written; the blocks held in addition are exactly those that get more than zeros or that an image underneath holds, and opening again depends on them as for a dynamic image |
| VhdWrites.WroteView | src/FATtools/vhdutils.py:534-652 | in terms of contents, a write is an overwrite |
| VhdRuns.Replay | src/FATtools/vhdutils.py:436-652 | any history of seeks, reads and writes at the running position, through an image over any line of parents, answers and leaves what a flat array with a position would, seeks off the disk included, and the parents are untouched; which blocks are held afterwards, and exactly when the container opens again |
| VhdRuns.Again | src/FATtools/vhdutils.py:360-426 | closing and opening an image succeeds if and only if footer and copy are alike, and then shows the same disk |
| VhdUnchecked.UncheckedReached | src/FATtools/vhdutils.py:366-413 | a concrete container, dynamic or over another, with all that opening asks for - cookies, host, layout, a locator that leads to a name, the identifier of the parent - but a footer that does not carry its checksum |
| VhdUnchecked.NotAgain | src/FATtools/vhdutils.py:555-562 | one byte written to it, and it does not open any more |
| VhdMerge.MergeCopied | src/FATtools/vhdutils.py:674-683 | copying a marked sector advances the merge invariant by one sector |
| VhdMerge.MergeEnd | src/FATtools/vhdutils.py:654-690 | a finished merge gives the parent the contents of the child |
| VhdImage.Image.Reopens | src/FATtools/vhdutils.py:366-424 | a line of images opens again if and only if in every container of it footer and copy are alike |
| VhdMerge.SectorNeeded | src/FATtools/vhdutils.py:679-683 | merging a marked sector makes the parent hold its block, unless the sector is all zeros and no image underneath has the block |
| VhdMerge.StuckHere | src/FATtools/vhdutils.py:667-669 | whether the parent can be opened again for a block, from the two disks as they were before the merge: it never could, or it has got a new block since and its footer did not carry its checksum |
| VhdImage.Image.Merge | src/FATtools/vhdutils.py:654-690 | stops at a block if and only if that is the first for which the parent cannot be opened again; else the parent, dynamic or itself differencing, shows afterwards what the child showed before, byte for byte in their files, and the counts are those of marked sectors and of blocks with any |
| VhdUnchecked.MergeStops | src/FATtools/vhdutils.py:667-681 | a concrete child of two blocks whose merge stops at the second |
| FileMove.Move | src/FATtools/utils.py:207-247 | for every chunk size: old head, fill, old tail; nothing for a delta that is not positive; past the end the file is only extended |
| FileMove.MoveTail | src/FATtools/utils.py:221-238 | the overlapping backward move brings the tail over unharmed |
| FileMove.InsertedIs | src/FATtools/utils.py:207-247 | the result as one concatenation |
| FileMove.FillAtEnd | src/FATtools/utils.py:216-219 | at the very end of the file the fill byte is honoured exactly if it is zero |
| VhdFooter.Checksum | src/FATtools/vhdutils.py:757-762 | the checksum read as a big-endian number is the complement of the byte sum |
| VhdFooter.ChecksumGrows | src/FATtools/vhdutils.py:757-762 | no bytes give FFFFFFFF, and each byte more lowers the checksum, as four bytes with the high one first, by that byte |
| VhdFooter.PackedExactly | src/FATtools/vhdutils.py:86-91 | packing leaves a footer as it was if and only if it carried its checksum |
| VhdFooter.PackedTwice | src/FATtools/vhdutils.py:86-91 | a packed footer carries its checksum, so that packing it again changes nothing |
| VhdFooter.TwinsExactly | src/FATtools/vhdutils.py:376-381 | once the trailing footer has been packed the container passes the comparison of the copies if and only if the copy carries its checksum |
| VhdExpand.NewChecksums | src/FATtools/vhdutils.py:714-726 | the new footer and header each carry the checksum of themselves with that field zeroed |
| VhdExpand.Chs | src/FATtools/vhdutils.py:730-755 | the footer geometry fits its fields and never claims more sectors than the disk has |
| VhdExpand.ChsIs | src/FATtools/vhdutils.py:730-755 | in numbers: tracks of 17, 31, 63 or 255 sectors, 4 to 16 heads, and as many cylinders as the sectors, at most 267382800, fill |
| VhdExpand.ChsValues | src/FATtools/vhdutils.py:730-755 | the four bytes for 1 MiB and for 100 GiB |
| VhdExpand.ExpandedTitles | src/FATtools/vhdutils.py:714-726 | new footer and header describe the larger geometry, and the trailing footer equals the leading one |
| VhdExpand.RebasedDisk | src/FATtools/vhdutils.py:692-728 | the container with the longer table is laid out again and shows the old disk followed by zeros |
| VhdExpand.NewFooterReads | src/FATtools/vhdutils.py:715-718 | the new footer reads back the new size and the old disk type |
| VhdExpand.NewFooterBytes | src/FATtools/vhdutils.py:714-726 | byte by byte: size at 0x28 and 0x30, geometry at 0x38, identifier at 0x44 are new, the checksum aside every other byte is the old one |
| VhdExpand.NewHeaderReads | src/FATtools/vhdutils.py:719 | the new header reads back the new table length and the old block size and table offset |
| VhdExpand.NewHeaderBytes | src/FATtools/vhdutils.py:719-726 | byte by byte: the table length at 0x1C is new, the checksum aside every other byte is the old one |
| VhdExpand.StillSigned | src/FATtools/vhdutils.py:104-106 | cookies and host in both footers and the cookie of the header are kept |
| VhdImage.Image.MoveBlocks | src/FATtools/vhdutils.py:702-713 | table sectors are inserted and every used entry moves on by as many sectors, no other |
| VhdImage.Image.Expand | src/FATtools/vhdutils.py:692-728 | refuses unless the disk grows and has no parent, else leaves a container that opens to the old contents followed by zeros, read from its bytes too; both footers and the header have the bytes they had but for size, geometry, identifier, table length and checksums, so cookies and host are kept; the file grows by the sectors the longer table takes |
| CacheState.CommitKeeps | src/FATtools/disk.py:235-241 | writing a slot to the file keeps tables inverse, clean slots equal to the file, and the disk |
| CacheState.LoadKeeps | src/FATtools/disk.py:289-311 | reusing the next slot for another sector keeps all of it |
| CacheState.PokeKeeps | src/FATtools/disk.py:388-395 | bytes put into a slot show in the disk and nowhere else |
| CacheState.StrayKeeps | src/FATtools/disk.py:289-311 | a slot filled from where the file stands, instead of its sector, and made dirty: the sector now reads as those bytes, and no other changes |
| CacheState.DirectKeeps | src/FATtools/disk.py:369-387 | writing whole sectors past the cache, once their slots are dropped, shows in the disk and nowhere else |
| CacheState.StandsReads | src/FATtools/disk.py:313-349 | while the invariant holds every sector, cached or not, reads as the disk has it |
| CacheState.UnfilledExactly | src/FATtools/disk.py:289-326 | after a read of nothing at a sector boundary every sector still reads the same if and only if the boundary is the end of the disk, or the slot it enters lies in the buffer and happens to hold that sector |
| CacheState.UnfilledLosesData | src/FATtools/disk.py:289-326 | a concrete cache in which such a read loses data |
| CacheState.UnfilledPastBuffer | src/FATtools/disk.py:289-326 | with the buffer full the sector reads as no bytes at all afterwards |
| CacheState.DirectExactly | src/FATtools/disk.py:369-387 | a write past the cache shows if and only if the sectors it leaves in their slots hold the same bytes |
| CacheAim.HitsLands | src/FATtools/disk.py:351-397 | a write that hits, as sector, offset, position and file position tell before it, overwrites the disk at the position: head through a slot, whole sectors past the cache, tail through another slot |
| CacheView.LandsExactly | src/FATtools/disk.py:351-397 | a write of n bytes lands at the position, whatever is on the disk and in the next slot and whatever is written, if and only if it hits |
| CacheView.LandsFlushed | src/FATtools/disk.py:227-257 | straight after a flush, from in step, it lands if and only if the file then stands at its sector (where it stood, if nothing was dirty, or behind the last dirty sector), or it is one whole sector, or goes through a slot and none is left, so that the code seeks again |
| CacheView.ReadyHits | src/FATtools/disk.py:351-397 | when sector, offset and file position are those of a seek to the position, a write is sound and hits |
| DiskCache.Disk.Seek | src/FATtools/disk.py:202-216 | the position for each origin, clamped to the disk, with sector and offset in agreement |
| DiskCache.Disk.FlushSector | src/FATtools/disk.py:235-241 | one dirty sector is written and clean, the disk is the same |
| DiskCache.Disk.CacheFlush | src/FATtools/disk.py:227-257 | afterwards the file is the disk, nothing is dirty, the tables are empty, and the file stands behind the last dirty sector, or where it stood |
| DiskCache.Disk.RetrieveMany | src/FATtools/disk.py:259-287 | no sector about to be read past the cache is dirty any more |
| DiskCache.Disk.ReadInto | src/FATtools/disk.py:289-311 | the sector is cached, tables stay inverse when slots are reused, the disk is the same, but for a sector whose slot was filled from elsewhere |
| DiskCache.Disk.Read | src/FATtools/disk.py:313-349 | the bytes of the disk, cached or not, and where sector, offset and file position are left; only a read of nothing at a boundary breaks the invariant, in the way stated |
| DiskCache.Disk.Write | src/FATtools/disk.py:351-397 | straight after anything, a flush included: the disk is changed exactly as the aim of the write says, which is an overwrite at the position if it hits; the invariant is kept through partial sectors, whole ones past the cache, dropped slots and slots filled from elsewhere |
| DiskCache.Disk.StaleWrite | src/FATtools/disk.py:345-355 | after any read within one sector a write as short, with no seek between, goes back to where the read began |
| DiskCache.HitsAfterRead | src/FATtools/disk.py:313-397 | a write straight after a read lands at the position if and only if the read was of nothing, or of more than one sector from boundary to boundary; past the cache, if the file stands there; into a slot for which room has to be made, if it ends with the sector or the offset is right |
| DiskCache.Misplaced | src/FATtools/disk.py:345-355 | a concrete disk: ten bytes read from its start, one written, and it is at 0 |
| DiskCache.ReadsNothing | src/FATtools/disk.py:289-326 | a concrete disk: a byte read, a flush, nothing read, and the sector reads as no bytes |
| DiskRuns.Replay | src/FATtools/disk.py:202-397 | any history of seeks, reads, writes and flushes, for any cache capacity, up to a read of nothing at a boundary or a write that is not sound: what each returns, where each write goes, what each leaves for the next; after a flush the file is the disk |
| DiskRuns.FlatRun | src/FATtools/disk.py:202-397 | through any such history in which every write hits, the cached disk is a flat array of bytes with a position |
| DiskRuns.LegalRun | src/FATtools/disk.py:202-397 | so it is, to the end, for every history in which writes follow a seek, a write, or a read they are ready after |
| DiskRuns.ShortTwice | src/FATtools/disk.py:227-257 | part of a sector written, a flush, and more written: the second write lands if and only if the first ended with its sector or filled the last slot |
| DiskRuns.FlushLosesBytes | src/FATtools/disk.py:247-311 | a concrete disk: a hundred ones written at its start, a flush, a hundred twos, and the ones are gone |
| FlatDisk.DiskStream.Do | src/FATtools/disk.py:202-397 | what the FAT driver and the chain files run on: every seek, read and write they issue is one of those of LegalRun, with that answer |
| FlatDisk.MovedIs | src/FATtools/disk.py:202-397 | one operation on the flat disk in numbers and bytes: where a seek goes, how many bytes a read gets, what a write leaves |
| FatFormat.Fit | src/FATtools/mkfat.py:172-185 | the loop finds the largest positive cluster count not above its estimate that fits, or there is none, or the width is excluded |
| FatFormat.FitWithoutRoom | src/FATtools/mkfat.py:163-192 | when reserved area and root exceed the volume a cluster size is listed if and only if slots have 12 bits, or 32 without the ban on few clusters; then with a negative count, at most one below the first estimate |
| FatFormat.WithoutRoomReached | src/FATtools/mkfat.py:163-192 | 320 sectors, 400 of them reserved, at 12 bits: listed with a negative count |
| FatFormat.SizeWidth | src/FATtools/mkfat.py:163-192 | exactly the cluster sizes that work are listed, each with its largest count |
| FatFormat.SizeFat | src/FATtools/mkfat.py:161-193 | exactly the widths and cluster sizes that work are listed |
| FatFormat.ExcludedIs | src/FATtools/mkfat.py:174-179 | the bounds in numbers: 12 bits up to 4085 clusters, 16 from 4085 to 65525, 32 up to 268435445, seven fewer with 18 special clusters, 65526 to 4177917 with the two FAT32 switches |
| FatFormat.InNumbers | src/FATtools/mkfat.py:165-190 | what a listed format is, without the functions above: an estimate within those bounds, and the most clusters that fit with their tables, reserved sectors and root |
| FatFormat.CountsFit | src/FATtools/FAT.py:240-264 | the driver can number the clusters of every listed format: all lie below its reserved values |
| FatFormat.FourHundredMebibytes | src/FATtools/mkfat.py:172-179 | on 400 MiB neither 16 bits with clusters of 4 KiB nor 12 bits with 64 KiB are possible |
| FatFormat.CandidateIs | src/FATtools/mkfat.py:163-164 | the cluster sizes tried are 512 bytes to 64 KiB |
| FatFormat.WidthsIs | src/FATtools/mkfat.py:120-139 | which widths are tried for which disk sizes, in bytes |
| FatFormat.BootFields | src/FATtools/mkfat.py:256-270 | the fields of the record in numbers, and the sector count in two bytes or four |
| FatFormat.WidthsFormattable | src/FATtools/mkfat.py:120-139 | with default root and reserved areas every width tried gives a record whose sector count is where the driver looks for it |
| FatFormat.RecordPacks | src/FATtools/mkfat.py:256-270 | every field of the record of a possible format fits its bytes if and only if the number of copies, of reserved sectors and of root entries do |
| FatFormat.UnpackedReached | src/FATtools/mkfat.py:256-258 | a concrete request, 70000 reserved sectors, whose format is possible and whose record cannot be packed |
| FatFormat.BootAreas | src/FATtools/FAT.py:65-224 | the boot record alone gives the areas the formatter planned, one after the other |
| FatFormat.BootClusters | src/FATtools/FAT.py:92-95 | the driver computes the cluster count the formatter chose if and only if a FAT32 record has no root area of a cluster or more |
| FatFormat.RootCounted | src/FATtools/FAT.py:92-95 | a concrete FAT32 request for which it computes another |
| FatFormat.BootInside | src/FATtools/FAT.py:97-107 | reserved area, FAT copies, root and every cluster are disjoint and inside the volume |
| FatFormat.SecondCopy | src/FATtools/FAT.py:237-239 | the second copy is where the formatter put it, and has room for every slot, if and only if the 12-bit size does not floor half a byte at a sector boundary |
| FatFormat.HalfByteReached | src/FATtools/mkfat.py:180-184 | a disk of 700 sectors does |
| ExfatFormat.Fit | src/FATtools/mkfat.py:513-530 | at most one correction, the corrected count fits, and it is accepted exactly in range |
| ExfatFormat.SizingIs | src/FATtools/mkfat.py:513-530 | in numbers: four bytes of FAT for each cluster and two more, in whole sectors; from what fits without a FAT as many clusters are taken off as cover the excess, and no more |
| ExfatFormat.ExfatAreas | src/FATtools/mkfat.py:565-570 | with one FAT and no padding boot region, FAT and heap follow one another inside the volume, and every cluster has its slot |
| ExfatFormat.FatsApartExactly | src/FATtools/mkfat.py:565-570 | FATs and heap are apart if and only if the further FATs fit into the padding |
| ExfatFormat.SecondFatInHeap | src/FATtools/mkfat.py:565-570 | a concrete volume whose second FAT lies in its heap |
| ExfatFormat.HeapInsideExactly | src/FATtools/mkfat.py:569-570 | the heap ends inside the volume if and only if 511 times the padding fits into what is left over and the further FATs |
| ExfatFormat.HeapPastEnd | src/FATtools/mkfat.py:569-570 | a concrete volume whose heap does not |
| ExfatFormat.RecommendedAllowed | src/ps2ripper/storage/exfat.py:70-76 | the recommended cluster size is always one the formatter allows |
| ExfatFormat.FormatLayout | src/ps2ripper/storage/exfat.py:79-108 | for every disk size not refused: one nonempty partition from byte 1048576 that ends before the last 33 sectors and loses at most two cylinders, clusters of 4, 32 or 128 KiB by its size, 64 KiB reserved, a format that fits, and an MBR entry with that start, that length and addresses that lead back to them |
| DiskGeometry.GetGeometry | src/FATtools/utils.py:105-153 | cylinders times heads times sectors never exceeds the disk; outside the table of known sizes it is always 63 sectors, and the first of 2, 4, 6, 8, 9, 10, 16, 32, 64, 128, 240 and 255 heads that do |
| DiskGeometry.KnownIs | src/FATtools/utils.py:107-124 | the table of known sizes: each geometry has exactly its sectors, with these heads and cylinders |
| DiskGeometry.LbaRoundTrip | src/FATtools/utils.py:155-166 | an address in range survives conversion to a sector number and back |
| DiskGeometry.ChsRoundTrip | src/FATtools/utils.py:155-166 | every sector number survives conversion to an address and back |
| DiskGeometry.AddressNext | src/FATtools/utils.py:155-166 | addresses count sectors in disk order, from cylinder 0, head 0, sector 1 |
| DiskGeometry.RawRoundTrip | src/FATtools/utils.py:168-181 | 10-bit cylinder, head and 6-bit sector survive packing into three bytes |
| DiskGeometry.RawBytes | src/FATtools/utils.py:168-181 | the three bytes as numbers: head, 64 times the cylinder by 256 plus sector, cylinder modulo 256; past cylinder 1023 254, 255, 255 |
| DiskGeometry.Mbr.MkPart | src/FATtools/partutils.py:234-268 | a nonempty partition inside the size given that ends with the last cylinder it can, or past 8422686720 bytes has the whole MiB of it, with the addresses of its first and last sector |
| DiskGeometry.Mbr.SetPart | src/FATtools/partutils.py:212-228 | the entry describes that partition, its packed addresses lead back to its sectors or are the customary ones past cylinder 1023, and little is left over |
| Crc32c.LookupIs | src/FATtools/crc32c.py:3-36 | every one of the 256 table entries is the division of its index by the reflected polynomial |
| Crc32c.TableStepIs | src/FATtools/crc32c.py:44-46 | one table step is eight bit steps, for every state and byte |
| Crc32c.CrcUpdate | src/FATtools/crc32c.py:42-47 | the loop computes the bit-at-a-time CRC of the first data_len bytes from any start value |
| Crc32c.CrcSplits | src/FATtools/crc32c.py:42-47 | the CRC of a concatenation is the CRC of the second part started from that of the first |
| Crc32c.Resume | src/FATtools/crc32c.py:38-47 | a finished CRC can be taken up again |
| Crc32c.NineDigits | src/FATtools/crc32c.py:1-47 | the check value: the digits 1 to 9 give E3069283 |
| LongNames.GenRawSlots | src/FATtools/FAT.py:1303-1336 | no slots for an empty name, a refusal above 255 units, else the slots and the short entry |
| LongNames.SlotHeads | src/FATtools/FAT.py:1322-1336 | slots are 32 bytes, numbered downwards, only the first marked 0x40, each with 15 in byte 11, the checksum of the short name in byte 13 and zeros in 12, 26 and 27; the short entry follows |
| LongNames.SlotUnits | src/FATtools/FAT.py:1311-1332 | where each UTF-16 unit of the name lies: bytes 1, 3, 5, 7, 9, 14 to 24 and 28, 30 of its slot, the low byte first; then one NUL, then FFFF |
| LongNames.MakeSlot | src/FATtools/FAT.py:1325-1332 | filling the slot through slices of the wrong length still gives the 32 bytes intended |
| LongNames.LongName | src/FATtools/FAT.py:1133-1148 | the units at those places from the last slot to the first, up to a NUL; nothing unless bytes 11, 12, 26 and 27 are 15, 0, 0, 0 |
| LongNames.LongNameRoundTrip | src/FATtools/FAT.py:1133-1148 | a name of 1 to 255 units is read back from its slots if and only if it contains no NUL |
| LongNames.NameThere | src/FATtools/FAT.py:1303-1336 | writing a name without NUL and reading it gives the name |
| LongNames.ComputeChecksum | src/FATtools/FAT.py:1377-1384 | the loop over the short name computes its checksum |
| LongNames.ReadmeChecksum | src/FATtools/FAT.py:1377-1384 | README.TXT has checksum 115 |
| CdSector.UserData | src/ps2ripper/imaging/cd_sector.py:17-38 | there are 2048 bytes of user data exactly in sectors of mode 1 and of mode 2 form 1 |
| CdSector.UserDataBytes | src/ps2ripper/imaging/cd_sector.py:17-38 | in bytes: the twelve of the sync pattern and byte 15 tell, the data begin at byte 16 in mode 1, and at byte 24 in mode 2 with two equal subheaders and the form bit clear |
| Ripper.ReadStretch | src/ps2ripper/imaging/ripper.py:91-110 | for every pattern of failures: some sectors of the disc, or one that failed more often than allowed; the retries are counted |
| Ripper.RipDvd | src/ps2ripper/imaging/ripper.py:67-133 | ends whatever fails; the image is the disc except for the sectors listed as damaged, which are zeros; without leave to continue it is the disc or a read error |
| Ripper.DvdSector | src/ps2ripper/imaging/ripper.py:89-114 | sector by sector: zeros if listed, else the sector of the disc |
| Ripper.RipTrack | src/ps2ripper/imaging/ripper.py:174-193 | one track, or the first sector of it that could not be read |
| Ripper.RipCd | src/ps2ripper/imaging/ripper.py:136-215 | the raw sectors of the tracks one after the other, or a sector of a track that failed more often than allowed; the retries are counted |
| Ripper.ArchiveContiguous | src/ps2ripper/imaging/ripper.py:148-194 | on a disc whose tracks follow one another the archive is one stretch of it, from the first track to the last |
| Ripper.ArchiveFrame | src/ps2ripper/imaging/ripper.py:229-248 | frame k of a track lies 2352 bytes for each sector behind the first track, and is disc sector start + k |
| Ripper.Convert | src/ps2ripper/imaging/ripper.py:218-248 | byte j of sector k of the ISO is byte 16 + j, or 24 + j, of the frame that lies in the archive at 2352 * (start - first + k); else which frame is short or has no data |
| Ripper.CookedBytes | src/ps2ripper/imaging/ripper.py:218-248 | the data of the frames, byte by byte |
| Ripper.IsoSector | src/ps2ripper/imaging/ripper.py:229-252 | from disc to ISO: byte j of sector k is byte 16 + j, or 24 + j, of disc sector start + k |
| Optical.Entries | src/ps2ripper/windows/optical_api.py:269-275 | the descriptors of the response, no further than its length field and its bytes go: number, data bit and address from their bytes |
| Optical.LeadoutIs | src/ps2ripper/windows/optical_api.py:276-278 | the lead-out is the first entry numbered 0xAA, the tracks are all others |
| Optical.KindBytes | src/ps2ripper/windows/optical_api.py:283-288 | the kind of a data track from the bytes of its first sector |
| Optical.ReadToc | src/ps2ripper/windows/optical_api.py:259-292 | tracks are returned exactly if there is one session, the response has a header, tracks and a lead-out in order, and the first sector of every data track is readable and of a known form; each ends before the next, the last before the lead-out |
| Optical.FollowsContiguous | src/ps2ripper/windows/optical_api.py:281-292 | such tracks follow one another without a gap up to the lead-out |
| Optical.BlockStream.Seek | src/ps2ripper/windows/optical_api.py:352-363 | the position for each origin, no further than the end; negative ones refused |
| Optical.BlockStream.Read | src/ps2ripper/windows/optical_api.py:368-390 | exactly the bytes of the stream from the position, across sector boundaries, each byte 16 + j, or 24 + j, of its raw sector, or a failed read that moves nothing |
| Optical.Extract | src/ps2ripper/windows/optical_api.py:384-387 | user data of raw sectors, or nothing exactly if one of them has none |
| Optical.StreamIsIso | src/ps2ripper/windows/optical_api.py:368-390 | the stream of a data track shows, byte for byte of the disc, what the ISO made from the archive has |

## Left out

What contracts state weaker than the code or its documentation:

- FatDriver.Fat.FindFree: takes any mapped run, where `popitem` takes the last entered; every result holds for that order too.
- FatDriver.Fat.CompactPass: visits the runs in any order, where the code sorts them first.
- FatDriver.Fat.Alloc: needs a count above zero; with zero the code fails on an unset variable.
- FatDriver.Fat.FreeChain: the variant of `free` that is handed the runs is not modelled; nothing calls it.
- FatDriver.Fat.constructor: every cluster number lies below the reserved values; what is done later is stated for volumes whose two copies are alike.
- ChainFile.Chain.Seek: a failed growth raises in the code; here it is reported, with the position moved as the code leaves it; targets below zero are ChainFile.Chain.SeekBelow's.
- ChainFile.Chain.ReadBelow: of a file of one run; of a fragmented one what a read from before the start returns is left open.
- ChainFile.Chain.constructor: opened from a first cluster and a size, not with a known last cluster or as an exFAT contiguous file; the other methods are stated for run lists equal to the chain, so not for one that ends in another mark than the driver writes.
- ChainFile.Chain.Trunc: needs the position to lie before the end of the last cluster; ChainClients.TruncAtEnd states the rest.
- ChainClients.TruncAtEnd: of the loop without end only that it is entered is stated.
- ChainRuns.Replay: stops at a seek to before the start (ChainFile.Chain.SeekBelow states it) and at a truncation at the end of the last cluster; what appended clusters held before is left open, as the code leaves it.
- VhdImage.Image.constructor: containers laid out as mk_dynamic and mk_diff write them; opening ignores a wrong checksum, as the code only logs it.
- VhdImage.Image.Read: positions stay inside the disk, whose size is a multiple of 512; the block is a multiple of 512 whose bitmap takes whole sectors, as for every power of two.
- VhdImage.Image.Merge: the parent stays the same object where the code closes and reopens its file, and only the test of its footers is made again; the child's file is not deleted.
- VhdImage.Image.Expand: the new unique identifier is a parameter; the larger table must still be addressable; the header is read again from the file; the image is opened anew afterwards.
- VhdNew.NewDisk: the fields of footer and header that do not place anything (times, names, locators) are left open.
- DiskCache.Disk.Write: not one that raises, whose first bytes go past the end of the disk, or that leaves a slot it should have dropped (what such a slot does: CacheState.DirectExactly); capacity is any multiple of 512, disk size a positive multiple of 512.
- FlatDisk.DiskStream.Do: the volume takes the whole disk; a partition only adds its offset, a whole number of sectors.
- DiskRuns.Replay: stops at a read of nothing at a sector boundary, which may break the invariant in the way stated, and at a write of those kinds; which sectors are cached is left open, as it depends on the capacity.
- FatFormat.Fit: needs room for reserved area and root; FatFormat.FitWithoutRoom states the rest.
- FatFormat.BootAreas: 512-byte sectors, whole root sectors, and at least 65536 sectors for 16 and 32 bits, as in every volume the formatter accepts.
- DiskGeometry.Mbr.MkPart: sizes of at least 255 times 63 sectors and geometries that can be addressed, which holds for every disk FormatLayout accepts.
- LongNames.GenRawSlots: names are UTF-16 units; surrogate pairs, dates and the making of short names are outside; the short entry is a parameter.
- Ripper.RipDvd: the reader fails as it likes or returns exactly the sectors asked for; cancellation, progress, free space, digests and removal of partial files are left out.
- Ripper.RipCd: the cue file is left out; each track's range is in order, as the code requires when it makes a track.
- Ripper.Convert: removal of the partial ISO and checks for existing files are left out.
- Optical.ReadToc: the sectors that tell the kind of a data track are a parameter.
- Optical.BlockStream.Read: the drive returns whole sectors or fails.

What is not modelled:

- exFAT directories and its allocation bitmap: exFAT.py is only a client of the table here; all `exfat` branches of FAT.py.
- Fixed VHDs, parent locators and their path lookup, the statistics of the cache.
- Boot code, volume labels, FSInfo, up-case table, writing of the formatted areas: byte copying once the sizes are known.
- The choice among the cluster sizes found possible and the floppy parameter table: lookups.
- GPT, partition types, the extended partition entries of an MBR.
- Directory tables, path walking, attributes, times, sorting: mostly lookups and field copying.
- VHDX and VMDK and VDI images, except for the bitmap VHDX shares with VHD.
- NTFS reading, Win32 and SCSI calls, drive enumeration, volume locks, the user interface, packaging.
- Reed-Solomon and EDC fields of raw CD sectors: the code does not check them.
