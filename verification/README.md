# System 7 core algorithms in Dafny

A model of the algorithmic parts of a C reimplementation of System 7, with proofs. Five parts:

- **Files on an HFS volume** (`Words`, `Bitmap`, `Allocation*`, `Extents`, `ExtentLaws`, `GrowthLaws`,
  `ExtensionLaws`, `EarlyMerge`, `SearchHint`, `Ownership`, `VolumeRuns`, `VolumeControl`, `FileControl`, `FilePosition`, `ByteSlices`, `ForkBytes`,
  `ForkIO`, `ForkLaws`, `WriteLaws`). A bitmap of allocation blocks with a free counter, a first-fit search, files of
  three extents that grow and are cut back, and byte reads and writes through the block map. The classes `VCB` and `FCB`
  change their fields in place; each method is proved equal to a function of the old state, and the laws are proved
  about those functions: who owns which block over whole runs, that a file is one flat sequence of bytes, and that what
  is written is read back with every other byte of every file as it was.
- **Resource files** (`ByteTables`, `Resource*`, `Wrappers`). The Python writer and the C reader of one format; looking
  up what was written gives the last resource with the type and id, and every reference leads to its name.
- **Resource decompression** (`VarTable`, `EncodedValue`, `ExtendedOps`, `ExtendedLaws`, `Dcmp1`, `Dcmp1Laws`, `Greggy`,
  `DecompressContext`, `Overruns`, `EmittedBytes`). A dictionary decoder, a prefix code for integers, the extended
  operations and the bitmap decoder, each with an encoder that it undoes, the bytes they put out, and exactly when an
  access that is not checked goes wrong.
- **The C library** (`Sort`, `NumberFormat`, `NumberLaws`, `Format*`, `Printf`, `Division`, `Strtok`). Quicksort on bytes,
  the bounded formatter (ISO/IEC 9899:1999 section 7.19.6.12) with a grammar of its formats and the exact text of each
  conversion, the number parsers on any string, which read back what it prints, 64-bit division, and the reentrant
  tokenizer (section 7.21.5.8).
- **The SCSI request queue** (`ScsiQueue`, `ScsiLists`, `ScsiRefinement`) as a state machine over its critical sections
  and as linked lists changed in place, whose operations are the machine's steps; and **the calendar** (`Calendar`).

Where the code departs from what it evidently means to do, the model keeps the code and says exactly when it does
what it should:

- The search for free blocks keeps its count when it wraps to block 0, so a run may straddle the end of the volume and
  the recount grants less than was asked for: `AllocationLaws.GrantIsFull`, `AllocationLaws.ShortGrantExample`. What this
  means for growth and for writes: `GrowthLaws.ExtendReaches`, `ForkLaws.WholeRangeMapped`.
- A new run may merge into an extent that is not the file's last one, and then the order of the file's blocks breaks:
  `GrowthLaws.RecordAppends`, `EarlyMerge.OrderIsLost`, `ForkLaws.EarlyMergeMovesBytes`.
- The search for a file's next run starts at the end of its last extent, which may be the block count itself. With just
  the bitmap's bytes in the cache that start lies outside them exactly for a file that ends on the last block of a
  volume of a multiple of 8 blocks: `SearchHint.HintOutOfReach`, `SearchHint.OutOfReachExample`. The cache of the model
  may hold any number of bytes more, and with one byte more every search of every file is covered;
  `SearchHint.HintAtVolumeEnd` says what the bit found there does to the grant. The methods ask only that the start lie
  inside what the cache holds.
- The block count is at most 32767 because the search pointer is a signed 16-bit field:
  `AllocationLaws.SearchPointerRange`.
- A bitmap write that fails leaves the blocks marked or cleared: `AllocationLaws.GrantFails`,
  `GrowthLaws.FailedExtendLaw`, `GrowthLaws.FailedTruncateLaw`. In the repository `IO_WriteBlocks` is a stub that always
  answers `ioErr` (src/FileManagerStubs.c:1261-1264), so every grant there ends that way; runs of successful writes, as in
  `VolumeRuns.RunKeepsSound`, are those of a volume whose device works.
- `fcbPLen` and `fcbCrPs` exist twice, in the base record and around it; both copies are modelled, and each operation
  uses the copy the code uses.
- Ends of requests are computed in 32 bits in reads and writes: `ForkLaws.ReadStopsAtEnd`.
- In the decompressor of dcmp 1 the tokens D0 to D4 are constant words; the cases written for them cannot be reached.
- The entry table, the flags of a run and the second length byte are accessed without a check in the decompressors:
  `Overruns.EntryOverrunExactly`, `Overruns.BitmapOverruns`.
- An expired timer completes a queued SCSI request and then executes it: `ScsiQueue.StepKeepsParted`,
  `ScsiQueue.ExpiredTwice`.
- `strtol` and `strtoul` leave the end behind blanks, sign and prefix when there are no digits, and overflow wraps:
  `NumberLaws.LongIs`.
- `DateTime_FromUnix` and `DateTime_ToUnix` use a 32-bit `time_t`: `Calendar.UnixRoundTrip`.

Integer widths are those of the 32-bit build (`long`, `size_t` and `time_t` have 32 bits).

## Model

| member | source | states |
|---|---|---|
| Bitmap.BitsAt | src/FileManagerStubs.c:946-950 | block n of the volume is bit n mod 8, counted from the left, of byte n / 8 of the bitmap |
| Bitmap.SetBit | src/FileManagerStubs.c:952-956 | sets the flag of one block and changes no other flag |
| Bitmap.ClearBit | src/FileManagerStubs.c:958-962 | clears the flag of one block and changes no other flag |
| Allocation.FindFreeRun | src/FileManagerStubs.c:965-1006 | for every hint inside the cached bitmap the scan ends and answers the first window of clear blocks in visiting order, the wrap to block 0 included, or that there is none |
| AllocationLaws.LowestRun | src/FileManagerStubs.c:965-1006 | from hint 0 the answer is the lowest start of a clear run of the length asked for, and there is no such run exactly when none is reported |
| AllocationLaws.NextRun | src/FileManagerStubs.c:965-1006 | from any hint on the volume the answer is the first clear run at the hint or after it, if there is one |
| AllocationLaws.WindowIsRun | src/FileManagerStubs.c:989-997 | a window that does not straddle the end of the volume is a clear run from the block reported |
| VolumeControl.VCB.Allocate | src/FileManagerStubs.c:1055-1146 | updates bitmap, free counter and search pointer of the volume in place exactly as the allocator function says, for every error path, a failing bitmap write included |
| VolumeControl.VCB.FindSpace | src/FileManagerStubs.c:1089-1103 | searches from the hint, or from the allocation pointer when the hint is 0, and then once more from block 0 |
| VolumeControl.VCB.CountRun | src/FileManagerStubs.c:1105-1113 | counts the clear blocks from the found start, up to the most asked for and the end of the volume |
| VolumeControl.VCB.Free | src/FileManagerStubs.c:1148-1204 | clears the run, counts only the blocks that were set, and moves the search pointer back, in place |
| AllocationLaws.GrantIsSafe | src/FileManagerStubs.c:1055-1146 | whatever the hint, a grant takes only blocks that were clear and inside the volume, the counter stays exact, and a refusal changes nothing |
| AllocationLaws.GrantIsFull | src/FileManagerStubs.c:1055-1146 | a full disk is reported only if no clear run of the length exists; a grant is shorter than asked for exactly when the first window straddles the end of the volume |
| AllocationLaws.CallOutcome | src/FileManagerStubs.c:1055-1146 | the error of every call, as a number, in the order of the source's tests, and the block where the next search will start |
| AllocationLaws.FreeOutcome | src/FileManagerStubs.c:1148-1204 | the same for freeing: its error, which bits are set after it, and where the next search will start |
| AllocationLaws.GrantFails | src/FileManagerStubs.c:1115-1144 | without a bitmap, or when it cannot be written back, the call fails, and every block that was in use stays so |
| AllocationLaws.ShortGrantExample | src/FileManagerStubs.c:989-997 | a concrete volume on which three blocks are asked for and two are granted without an error |
| AllocationLaws.SearchPointerRange | src/FileManagerStubs.c:1121-1125 | the signed 16-bit search pointer stays non-negative exactly while grants end below block 32768 |
| AllocationLaws.ReleaseIsExact | src/FileManagerStubs.c:1174-1185 | freeing counts exactly the blocks it cleared |
| AllocationLaws.ReleaseUndoesTake | src/FileManagerStubs.c:1105-1204 | a run that is taken and then freed leaves bitmap and counter as they were |
| FileControl.MapBlock | src/FileManagerStubs.c:425-458 | a block of a resident file is found where the concatenation of the extents' runs has it, with the exact number of adjacent blocks left in its extent; any other block is an error |
| FileControl.FindLastBlock | src/FileManagerStubs.c:546-553 | the hint is the end of the last used extent |
| FileControl.AllocateForFile | src/FileManagerStubs.c:538-569 | tries a clump after the end of the file, then just the blocks needed from anywhere |
| FileControl.AddExtent | src/FileManagerStubs.c:571-590 | the run goes to the first slot that is empty or ends where the run starts; otherwise no slot changes |
| FileControl.ExtendFile | src/FileManagerStubs.c:513-626 | volume and file control block change in place exactly as the extension function says, the rollback after a refused overflow insert included |
| FileControl.CutExtents | src/FileManagerStubs.c:763-803 | frees from the last slot backwards until enough blocks are free, stopping at the first failure |
| FileControl.TruncateFile | src/FileManagerStubs.c:628-813 | volume and file control block change in place exactly as the truncation function says |
| GrowthLaws.ExtendLaw | src/FileManagerStubs.c:513-626 | a resident file stays resident with its blocks its own; on success its block list is the old list followed by the run taken exactly if that run did not merge into an earlier slot; on failure bitmap, counter and file are unchanged; free blocks plus blocks of the file are conserved |
| GrowthLaws.RecordAppends | src/FileManagerStubs.c:571-590 | recording a run appends its blocks to the file exactly if the run is empty or does not merge into a slot with a used slot after it |
| EarlyMerge.OrderIsLost | src/FileManagerStubs.c:581-588 | a concrete volume and file: growing the file by one block makes it file block 1 and moves what was file block 1 |
| ForkLaws.EarlyMergeMovesBytes | src/FileManagerStubs.c:581-588 | for every growth whose run merges early there is a disk on which the file's bytes are not where they were |
| SearchHint.HintOutOfReach | src/FileManagerStubs.c:546-556 | the search leaves the bitmap's own bytes exactly for a file that ends on the last block of a volume of a multiple of 8 blocks; with one byte more in the cache it never leaves it |
| SearchHint.OutOfReachExample | src/FileManagerStubs.c:546-556 | a concrete volume of 8 blocks and a file in the last of them |
| SearchHint.HintAtVolumeEnd | src/FileManagerStubs.c:965-1146 | a search from the block count succeeds without granting a block exactly if the bit after the last block is clear and so are the first blocks of the volume, one fewer than asked for; otherwise its grant is complete |
| GrowthLaws.RollbackRestores | src/FileManagerStubs.c:592-612 | a run refused by the overflow tree is given back: bitmap and counter are as before the call |
| GrowthLaws.ExtendKeeps | src/FileManagerStubs.c:513-626 | whether the bitmap write succeeds or not, a growing file stays resident with its blocks its own |
| GrowthLaws.FailedExtendLaw | src/FileManagerStubs.c:538-569 | without a bitmap, or with a failing bitmap write, growth fails exactly if blocks are needed; the file keeps its extents and lengths, and its blocks stay its own |
| GrowthLaws.ExtendReaches | src/FileManagerStubs.c:538-626 | after a successful extension the file has all the blocks needed exactly if the run found was not cut off by the end of the volume |
| ExtensionLaws.ExtendAdds | src/FileManagerStubs.c:528-569 | a growth never fails while the blocks it lacks are to be had in one run and a slot is free; it adds a clump, or what is lacking if that is more, if there is such a run, else what is lacking, if there is such a run, and else reports a full disk; told from clump size, block size and bitmap |
| ExtensionLaws.ClumpAtEnd | src/FileManagerStubs.c:546-590 | if that many blocks are clear from the file's end on, the file gets exactly these, in order, after the blocks it has |
| ExtensionLaws.SlotDecides | src/FileManagerStubs.c:571-612 | once a run is found the call succeeds exactly if a slot is free or ends where the run starts, and otherwise fails as the overflow tree does |
| ExtensionLaws.SecondAttemptExample | src/FileManagerStubs.c:559-569 | a concrete volume with one clear block and a clump of four: the one block the file lacks is granted |
| ExtensionLaws.BlocksForIs | src/FileManagerStubs.c:528-536 | the blocks for a size are as many as hold it and no more |
| GrowthLaws.TruncateLaw | src/FileManagerStubs.c:628-813 | truncation keeps exactly the needed prefix of the file's blocks, clears exactly the bits of the rest, and leaves the physical length equal to what remains |
| GrowthLaws.FailedTruncateLaw | src/FileManagerStubs.c:763-803 | with a failing bitmap write the file keeps its blocks and their bits exactly if there was nothing to cut |
| ExtentLaws.CutSlotsLaw | src/FileManagerStubs.c:763-803 | the freeing loop drops exactly the last blocks of the file, clears exactly their bits and leaves the slots packed |
| GrowthLaws.FitsVolume | src/FileManagerStubs.c:425-458 | disjoint extents inside the volume cannot add up to more blocks than it has |
| Ownership.GrowKeeps | src/FileManagerStubs.c:571-590 | giving a clear run to a slot keeps the set bits equal to the union of the extents and the extents disjoint |
| Ownership.CutKeeps | src/FileManagerStubs.c:763-803 | dropping blocks from a file and clearing exactly their bits keeps them so |
| VolumeRuns.StepKeepsSound | src/FileManagerStubs.c:513-813 | any extension or truncation of any file keeps the volume sound and conserves free blocks plus file blocks |
| VolumeRuns.RunKeepsSound | src/FileManagerStubs.c:513-813 | over every run of extensions and truncations of any files: extents pairwise disjoint, set bits exactly the extents and the reserved blocks, counter equal to the clear bits, physical lengths equal to block size times blocks, and the sum of free and file blocks constant |
| FilePosition.SetFPos | src/FileManager.c:346-402 | the mark goes to the place told by mode and offset exactly if that lies within the file (modulo 2^32 for a target past the 32-bit range), and stays where it was on every error |
| FilePosition.SetEOF | src/FileManager.c:422-462 | the extents follow the new length, and the logical length and the mark follow only if the extents could |
| FilePosition.ResizedKeeps | src/FileManager.c:440-456 | with successful bitmap writes every change of length keeps the file resident and its blocks its own |
| FilePosition.ResizedHas | src/FileManager.c:422-462 | after a change of length that succeeds the file has the blocks it had if they are enough, after a cut exactly those the new length needs, after a growth at least those, unless its run is cut off at the end of the volume, and at most a clump, or what was lacking, more than before |
| ForkIO.ReadFork | src/FileManagerStubs.c:1268-1396 | moves exactly the file's bytes at the offset into the buffer, as many as are asked for, lie before the end the code checks and have blocks; the rest of the buffer and the disk are unchanged, an error is reported only if nothing is moved, and the mark moves only after a complete transfer |
| ForkIO.WriteMapped | src/FileManagerStubs.c:1448-1549 | the flat file is overwritten at the offset with as much of the data as has blocks, by way of read-modify-write for parts of blocks, and no byte outside the file's blocks changes |
| ForkIO.WriteFork | src/FileManagerStubs.c:1398-1566 | after the extension it asks for, the file is written as above; logical length and mark follow only a complete transfer; a refused extension leaves the part of the request below the outer length; a failing bitmap write included |
| ForkIO.FlatWrite | src/FileManagerStubs.c:1488-1530 | a write inside one block of a file is the same write on the flat file and touches nothing else |
| ForkIO.WriteExtendKeeps | src/FileManagerStubs.c:1425-1446 | the extension before a write keeps the volume and the file consistent |
| ForkLaws.ReadAfterWrite | src/FileManagerStubs.c:1453-1549 | after the transfer loop has moved everything a read of the same range returns exactly the data, and every other byte is as in the file the loop began with, that is after the extension |
| ForkLaws.PartialWriteKeepsRest | src/FileManagerStubs.c:1453-1474 | the same for a transfer that runs out of blocks, which does not move the end of the file |
| ForkLaws.ReadStopsAtEnd | src/FileManagerStubs.c:1299-1302 | the read is held back at the end of the file exactly if the 32-bit end of the request does not wrap below it |
| ForkLaws.ReadPastEndExample | src/FileManagerStubs.c:1299-1302 | a concrete request that is not held back |
| ForkLaws.GrowthKeepsBytes | src/FileManagerStubs.c:513-626 | growing a file by a run that does not merge early leaves every byte where it was |
| ForkLaws.TruncationKeepsBytes | src/FileManagerStubs.c:628-813 | cutting a file keeps exactly the bytes of the blocks it still needs |
| ForkLaws.FilesApart | src/FileManagerStubs.c:425-458 | two files of a sound volume have no byte of the disk in common |
| ForkLaws.WriteSparesOthers | src/FileManagerStubs.c:1398-1566 | a write to one file changes no byte of any other file |
| ForkLaws.RunSparesFile | src/FileManagerStubs.c:513-1566 | over every run of resizes and stores, a file that is not their target keeps its blocks and its bytes; WriteLaws.WriteIsSteps makes every write such a run |
| ForkLaws.WholeRangeMapped | src/FileManagerStubs.c:1425-1446 | after the extension the whole range to be written has blocks exactly if it was inside the file already or the run found starts early enough before the end of the volume |
| WriteLaws.ExtensionKeepsBytes | src/FileManagerStubs.c:1425-1446 | the extension before a write, failed or not, leaves the bytes of the file before the call as the beginning of the file, unless its run merges early |
| WriteLaws.OutcomeLaw | src/FileManagerStubs.c:1398-1566 | what the write comes to, told of the file before the call: every byte outside the range moved is as it was |
| WriteLaws.ToldByOutcome | src/FileManagerStubs.c:1398-1566 | when a write succeeds and how much of the data it moves: nothing without permission, all the file has blocks for if it did not have to grow or could, else what lies below the outer length; what is moved is the beginning of the data |
| WriteLaws.WriteInPlace | src/FileManagerStubs.c:1398-1566 | the call keeps volume and file consistent and every byte of the file before the call that it did not write, on every error path, moves what ToldByOutcome says, lets length and mark follow a complete transfer only, and leaves a completely written range readable, unless its run merges early |
| WriteLaws.WriteThenRead | src/FileManagerStubs.c:1268-1566 | a write and then a read of the same range: if the write was complete the buffer holds exactly the data, and every other byte of the file before the call is as it was |
| WriteLaws.WriteIsSteps | src/FileManagerStubs.c:1398-1566 | the effect of a write with a successful bitmap write is the resize it asks for, if any, and then a store in the file's blocks |
| WriteLaws.WriteSparesFiles | src/FileManagerStubs.c:1398-1566 | a write, whatever becomes of the bitmap write, changes no byte of any other file of a sound volume |
| WriteLaws.WriteKeepsSound | src/FileManagerStubs.c:1398-1566 | with a successful bitmap write the volume is sound after it |
| WriteLaws.WriteAmongFiles | src/FileManagerStubs.c:1398-1566 | the call itself on a sound volume of any number of files: such a run of steps, sound again, and every other file untouched; an early merge included |
| ForkBytes.WriteInBlock | src/FileManagerStubs.c:1488-1530 | writing inside block k of a file is overlaying the file at block size times k |
| ForkBytes.OtherFileSafe | src/FileManagerStubs.c:1488-1530 | what happens outside a file's blocks leaves the file as it is |
| ResourceWriter.GroupByType | gen_rsrc.py:235-238 | types in order of first appearance, the resources of each in list order |
| ResourceWriter.SortEach | gen_rsrc.py:239-241 | each group in stable order of id |
| ResourceWriter.BuildData | gen_rsrc.py:242-249 | the length-prefixed data in file order, and for each type and id the offset of the last such resource |
| ResourceWriter.BuildNames | gen_rsrc.py:251-269 | Pascal strings of the encoded names, each text stored once, and the name offset of each resource |
| ResourceWriter.BuildRefs | gen_rsrc.py:294-303 | the 12-byte references of a group, or a packing error if an id or a name offset does not fit |
| ResourceWriter.BuildTypeList | gen_rsrc.py:307-317 | count, type records with offsets from the start of the list, then all references |
| ResourceWriter.BuildRsrc | gen_rsrc.py:234-365 | the loops and patches build exactly the specified layout, or fail exactly if an id or a name offset does not fit |
| ResourceWriter.PatchedMap | gen_rsrc.py:348-359 | patching the blank map header gives the map with its copy of the file header and its two offsets |
| ResourceLaws.SortSorts | gen_rsrc.py:239-241 | the sort orders by id and keeps all resources |
| ResourceLaws.SortKeepsOrder | gen_rsrc.py:239-241 | the sort keeps the order of resources with equal type and id |
| ResourceLaws.WrittenOrder | gen_rsrc.py:235-241 | grouping and sorting keep, for every type and id, the resources that have them in list order |
| ResourceLaws.GroupedIs | gen_rsrc.py:235-238 | every type has one group, in order of first appearance, with exactly its resources in list order |
| ResourceRoundTrip.NameStored | gen_rsrc.py:251-269 | each text that is not empty stands in the name list as the Pascal string of the first resource that has it |
| ResourceRoundTrip.NamesApart | gen_rsrc.py:251-269 | different texts stand at different places |
| ResourceRoundTrip.NameOfLast | gen_rsrc.py:251-269 | the offset noted for a type and an id is that of the name of the last such resource, or -1 exactly if there is none |
| ResourceNames.NameFromWritten | gen_rsrc.py:251-359 | in the bytes of a written file the name field of every reference is 0xFFFF if the last resource with its type and id has no name, and else leads from the name list that the map notes to the encoded name of the first resource with the same text; attributes and handle are zero |
| ResourceNames.MapCopies | gen_rsrc.py:337-365 | the map begins with a copy of the file header, the data follows the header at 256, and the rest of both is zero |
| ResourceReader.GetResource | src/simple_resource_manager.c:45-128 | the scan of the registered bytes is the specified lookup on any bytes, reads outside them reported as such |
| ResourceReader.FindType | src/simple_resource_manager.c:85-126 | the loop over the types |
| ResourceReader.FindId | src/simple_resource_manager.c:100-123 | the loop over the references of one type |
| ResourceRoundTrip.EntryLeads | src/simple_resource_manager.c:105-121 | in a written file every reference leads to the data of the last resource with its type and id |
| ResourceRoundTrip.GetFromWritten | gen_rsrc.py:234-365 | for every resource list within the limits of the fields, looking up any type and id in the written file gives the data of the last resource in the list that has them, or nothing exactly if there is none; the empty list and duplicates included |
| VariableTable.VarTable.constructor | src/ResourceDecompression.c:227-238 | an empty dictionary, its end mark at the size of its data area |
| VariableTable.VarTable.Remember | src/ResourceDecompression.c:240-268 | appends the literal if it fits the data area and changes nothing otherwise; the literals stay packed downward without overlap |
| VariableTable.VarTable.Fetch | src/ResourceDecompression.c:270-282 | index k gives the k-th literal remembered, index 0 an empty one, any other index an error |
| VariableTable.LiteralsAfter | src/ResourceDecompression.c:253-265 | storing a literal just below the others leaves the others as they were |
| EncodedValue.DecodeBack | src/ResourceDecompression.c:334-371 | decoding undoes the 1, 2 or 5 byte code of every 32-bit value, wherever it stands and whatever follows |
| EncodedValue.PrefixFree | src/ResourceDecompression.c:334-371 | no code is the beginning of another |
| EmittedBytes.ValueRead | src/ResourceDecompression.c:334-371 | how a value is read from any bytes, byte by byte, underruns included |
| DecompressContext.Context.GetEncodedValue | src/ResourceDecompression.c:334-371 | reads the value and advances the input as specified; an underrun is noted and reads as 0 |
| DecompressContext.Context.CopyLiteral | src/ResourceDecompression.c:373-391 | copies input to output after both bounds checks |
| DecompressContext.Context.RememberLiteral | src/ResourceDecompression.c:393-410 | the literal enters the dictionary before the output is checked |
| DecompressContext.Context.ReuseLiteral | src/ResourceDecompression.c:412-433 | writes the literal of an index |
| DecompressContext.Context.HandleExtended | src/ResourceDecompression.c:435-633 | every extended operation, loop by loop, does what its function says, with the same errors |
| DecompressContext.Context.JumpTableRun | src/ResourceDecompression.c:444-487 | the loop of the jump table operation |
| DecompressContext.Context.EntryVectorRun | src/ResourceDecompression.c:489-523 | the loop of the entry vector operation |
| DecompressContext.Context.RunLength | src/ResourceDecompression.c:525-556 | the loops of the run-length operations |
| DecompressContext.Context.DiffRun | src/ResourceDecompression.c:558-625 | the loops of the three difference operations |
| ExtendedLaws.DifferenceBack | src/ResourceDecompression.c:612-615 | a 32-bit value plus the 32-bit difference to the next gives the next |
| ExtendedLaws.DiffBack | src/ResourceDecompression.c:558-625 | each difference operation undoes the encoding of every non-empty list of values it can hold, when the output has room |
| ExtendedLaws.RunLengthBack | src/ResourceDecompression.c:525-556 | the run-length operations undo the encoding of every run |
| ExtendedLaws.JumpTableBack | src/ResourceDecompression.c:444-487 | the jump table operation undoes the encoding of every jump table |
| ExtendedLaws.EntryVectorBack | src/ResourceDecompression.c:489-523 | the entry vector operation undoes the encoding of every list of vectors, with a constant step or with given offsets |
| EmittedBytes.DiffOutput | src/ResourceDecompression.c:558-625 | a difference operation puts out its values and nothing else, as big-endian words of two bytes or longs of four |
| EmittedBytes.RunOutput | src/ResourceDecompression.c:525-556 | the run-length operations put out the byte, or the word, as often as asked for |
| EmittedBytes.JumpTableOutput | src/ResourceDecompression.c:444-487 | the jump table operation puts out 3F 3C, the segment, A9 F0 and the offset for each offset, and one entry more without |
| EmittedBytes.EntryVectorOutput | src/ResourceDecompression.c:489-523 | the entry vector operation puts out 61 00, a branch 8 bytes shorter each time, 4E ED and the offset for each offset |
| DecompressContext.Context.Dcmp1Decompress | src/ResourceDecompression.c:986-1097 | on any input the main loop ends with exactly the output, dictionary, position and error of the left-to-right semantics |
| DecompressContext.Context.Dispatch | src/ResourceDecompression.c:1000-1090 | one token does what the semantics says |
| EmittedBytes.CopyToken | src/ResourceDecompression.c:1083-1087 | tokens 00 to 0F copy 1 to 16 bytes, with the errors as numbers |
| EmittedBytes.RememberToken | src/ResourceDecompression.c:1079-1082 | tokens 10 to 1F remember 1 to 16 bytes and copy them |
| EmittedBytes.ReuseToken | src/ResourceDecompression.c:1071-1078 | tokens 20 to BF put out a remembered literal, 20 an empty one; C0 to CF are errors |
| EmittedBytes.ConstantOutput | src/ResourceDecompression.c:64-72 | tokens D0 to F8 put out the two bytes of their constant word, listed byte by byte; F9 to FD are errors |
| Dcmp1Laws.ChunkBack | src/ResourceDecompression.c:1000-1090 | each token undoes the code of each kind of chunk |
| Dcmp1Laws.StreamBack | src/ResourceDecompression.c:986-1097 | decoding the code of any sound chunk list gives what the list stands for, when output and table have room |
| Dcmp1Laws.ReferenceForLiteral | src/ResourceDecompression.c:1071-1089 | a literal may be replaced by a reference to an equal remembered one: the list stays sound and stands for the same bytes |
| Dcmp1Laws.SameOutput | src/ResourceDecompression.c:986-1097 | the decoder gives the same output for both lists |
| Dcmp1Laws.CompressedBack | src/ResourceDecompression.c:986-1097 | for every byte string, however it is cut into pieces of at most 16 bytes, a compressor that uses references wherever it can is undone exactly, whatever the table capacity |
| DecompressContext.Context.ProcessBitmap | src/ResourceDecompression.c:839-913 | the loop over runs does what its function says on any input, with the same errors |
| DecompressContext.Context.ProcessRun | src/ResourceDecompression.c:875-909 | the loop over the words of a run |
| Overruns.EntryOverrunExactly | src/ResourceDecompression.c:240-268 | an entry is stored past the end of the table exactly if the stream, decoded with a table that is never too small, remembers as many literals as the table has entries; otherwise the size of the table makes no difference |
| Overruns.NoEntryOverrun | src/ResourceDecompression.c:986-1097 | an entry for every two bytes of input is always enough |
| Overruns.EntryOverrunExample | src/ResourceDecompression.c:240-268 | a concrete stream that remembers one literal with room for the end mark only |
| Overruns.BitmapOverruns | src/ResourceDecompression.c:845-909 | the input is read past its end exactly if it ends after the number of runs; a flag is shifted by a negative count exactly if the last run claims more than 32 words and the stream decodes with 32 instead |
| Overruns.BitmapOverrunExamples | src/ResourceDecompression.c:851-877 | an input for each |
| Greggy.FlagBack | src/ResourceDecompression.c:868-878 | bit 31 - k of the flags of a run says whether its word k is in the table |
| Greggy.RunBack | src/ResourceDecompression.c:875-909 | one run is decoded to the bytes of its words |
| Greggy.BitmapBack | src/ResourceDecompression.c:839-913 | for every 256-entry table and every non-empty word sequence of at most 255 runs, the bitmap encoding, short last run included, is decoded to exactly the big-endian bytes of the sequence |
| Sort.QsortSwap | src/System71StdLib.c:1504-1514 | exchanging the bytes of two elements exchanges the elements and nothing else |
| Sort.Partition | src/System71StdLib.c:1534-1550 | afterwards the pivot stands between elements that compare not above it and elements that compare not below it; the scans stay within bounds |
| Sort.QsortImpl | src/System71StdLib.c:1516-1554 | for any comparator the recursion ends, reorders only the elements from left to right and touches no other; for a total preorder they end up sorted |
| Sort.Qsort | src/System71StdLib.c:1556-1560 | the elements in some other order, sorted if the comparator is a total preorder |
| Sort.SidesSorted | src/System71StdLib.c:1552-1553 | sorting the two sides of a parted stretch sorts the stretch |
| FormatSink.FmtSink.Emit | src/System71StdLib.c:2182-2187 | every character counts, and is stored only while there is room for it and the NUL |
| FormatSink.FmtSink.Pad | src/System71StdLib.c:2189-2193 | n copies of a character, none for a negative n |
| FormatSink.FmtSink.EmitNumber | src/System71StdLib.c:2297-2350 | emits exactly the padded, prefixed, zero-filled digits of the value |
| FormatSink.CollectDigits | src/System71StdLib.c:2302-2315 | the 64-place digit buffer receives all digits of every 64-bit value in every base from 2 to 16 |
| NumberFormat.DigitsFit | src/System71StdLib.c:2302-2315 | a value below 2^n has at most n digits in every base from 2 |
| Printf.ReadDirective | src/System71StdLib.c:2370-2418 | flags, width, precision, length and conversion, with the arguments that asterisks take |
| Printf.Convert | src/System71StdLib.c:2421-2525 | one conversion emits its text |
| Printf.MeasureString | src/System71StdLib.c:2472-2473 | the length shown of a string: to its NUL or the precision |
| Printf.VsnPrintf | src/System71StdLib.c:2352-2533 | for every format, argument list and size, the buffer gets the first characters of the unbounded text, all of them or size - 1, and a NUL and is otherwise unchanged, and the full length is returned |
| Printf.VasPrintf | src/System71StdLib.c:2570-2611 | when memory is to be had the string returned is the whole text, in one pass or two; a length of 2^31 or more is an error |
| FormatGrammar.DirectiveRead | src/System71StdLib.c:2370-2418 | every proper directive is read as its flags, width, precision and length say, asterisks included, whatever follows it |
| FormatGrammar.FormatPrinted | src/System71StdLib.c:2352-2533 | a format of plain text and proper directives prints the text and the conversions, taking the arguments from left to right |
| FormatGrammar.ArgumentsInOrder | src/System71StdLib.c:2421-2525 | without asterisks the i-th conversion gets the i-th argument |
| FormatGrammar.PlainFormat | src/System71StdLib.c:2364-2368 | a format without a percent sign prints as itself, up to its NUL |
| FormatLaws.StringText | src/System71StdLib.c:2469-2477 | %s prints the string up to its NUL or the precision, or (null), in a field of the width, with blanks on one side |
| FormatLaws.CharText | src/System71StdLib.c:2462-2467 | %c prints the low byte of its argument in such a field |
| FormatLaws.NullText | src/System71StdLib.c:2479-2486 | %p of the null pointer prints (nil) in such a field |
| FormatLaws.PointerText | src/System71StdLib.c:2487-2490 | %p of any other pointer prints 0x and its hexadecimal digits |
| FormatLaws.OtherText | src/System71StdLib.c:2508-2524 | a doubled percent sign and one at the end print one, and an unknown conversion prints as it is written |
| FormatLaws.SignedText | src/System71StdLib.c:2423-2441 | %d and %i print sign, zeros and decimal digits of the value as the length modifier cuts it, in a field filled with blanks on one side or with zeros |
| FormatLaws.UnsignedText | src/System71StdLib.c:2444-2460 | %u, %o, %x and %X the same without a sign, in base 10, 8 or 16, with 0x or 0X if asked for, letters in the case of the conversion |
| NumberFormat.ReadLong | src/System71StdLib.c:1310-1372 | strtol: value and end of the number, for any string and base |
| NumberFormat.ReadUnsignedLong | src/System71StdLib.c:1374-1432 | strtoul: the same without a minus sign |
| NumberLaws.LongIs | src/System71StdLib.c:1310-1372 | for any string and base, 0 included: the value of the digits with the sign, in 32 bits, and the end at the first character that is no digit of the base |
| NumberLaws.UnsignedLongIs | src/System71StdLib.c:1374-1432 | the same without a minus sign |
| NumberLaws.SplitExists | src/System71StdLib.c:1310-1372 | every string has the parts that the two laws speak of |
| NumberFormat.DigitsRead | src/System71StdLib.c:1346-1363 | reading the digits of a value gives the value |
| NumberFormat.SignedBack | src/System71StdLib.c:1310-1372 | strtol reads the low 32 bits of every value printed in decimal with any sign character, width, precision, alignment and zero padding: the value itself exactly if 32 bits hold it |
| NumberFormat.UnsignedBack | src/System71StdLib.c:1374-1432 | strtoul and strtol read the low 32 bits of every value printed in octal, decimal or hexadecimal, with the prefix or without: the value itself exactly if it is below 2^32 or 2^31 |
| Format.SignedConversionBack | src/System71StdLib.c:2423-2441 | %d and %i with every length modifier: strtol reads back the low 32 bits of the value as the modifier cuts it, for hh, h, int and long that value itself, for ll, j and z exactly if 32 signed bits hold it |
| Format.UnsignedConversionBack | src/System71StdLib.c:2444-2460 | %u, %o, %x and %X with every length modifier: strtoul reads back in the same base the value as the modifier cuts it, for ll and j exactly if it is below 2^32 |
| Division.Udiv64 | src/System71StdLib.c:34-57 | the quotient rounded down for every 64-bit dividend and divisor, 0 for a zero divisor; no shift to the left loses a bit |
| Division.BitsDown | src/System71StdLib.c:47-56 | the second loop finds the quotient bit by bit from an aligned divisor |
| Division.SubtractStep | src/System71StdLib.c:47-52 | subtracting the shifted divisor and setting the bit keep dividend = quotient * divisor + rest |
| Strtok.StrSpn | src/System71StdLib.c:773-790 | the first place that is not in the set |
| Strtok.StrPbrk | src/System71StdLib.c:808-821 | the first place that is in the set, or null |
| Strtok.StrtokR | src/System71StdLib.c:861-889 | the next token, with at most the one delimiter after it overwritten, and where to go on |
| Strtok.Tokenize | src/System71StdLib.c:861-889 | calling it until it returns null gives every token once and in order and overwrites one delimiter after each |
| Strtok.SpansAreMaximal | src/System71StdLib.c:861-889 | the tokens are exactly the maximal stretches without delimiters |
| Strtok.SpansInOrder | src/System71StdLib.c:861-889 | the tokens come in order, each after the end of the one before |
| Strtok.InSetIs | src/System71StdLib.c:773-790 | a character is in a set if it stands somewhere in front of the set's NUL |
| Strtok.CutIs | src/System71StdLib.c:876-889 | exactly the characters right after the tokens are overwritten |
| ScsiLists.SCSIManager.AllocateQueueEntry | src/SCSIManager.c:223-237 | takes the first free entry, or a new one, cleared; the queue is untouched |
| ScsiLists.SCSIManager.FreeQueueEntry | src/SCSIManager.c:239-246 | the entry becomes the first free one |
| ScsiLists.SCSIManager.LinkEntry | src/SCSIManager.c:274-291 | the entry joins the queue at its head, or after the walk at its tail |
| ScsiLists.SCSIManager.EnqueueIO | src/SCSIManager.c:248-299 | a cleared entry with the request joins the queue, or the request completes with memFullErr |
| ScsiLists.SCSIManager.DequeueIO | src/SCSIManager.c:301-320 | the entry leaves the queue wherever it stands; one that is not queued changes nothing |
| ScsiLists.SCSIManager.CompleteIO | src/SCSIManager.c:322-351 | one completion routine is called, the statistics move, and the entry becomes the first free one |
| ScsiLists.SCSIManager.ProcessIOQueue | src/SCSIManager.c:507-595 | with nothing submitted meanwhile and no timer expired, the linked queue is emptied from the head and each request completes once, in turn, with the code of the answer to its last attempt |
| ScsiLists.SCSIManager.ExecuteHead | src/SCSIManager.c:545-588 | one turn of the loop: the head leaves the queue for good or goes back with one more retry, and no completion or attempt of any request is lost or moved |
| ScsiLists.FinalIsRight | src/SCSIManager.c:545-588 | a request is sent again exactly after the answers -1 and -2 while retries are left, and ends with the code of its last answer |
| ScsiLists.SuccessIs | src/SCSIManager.c:545-588 | a request completes with noErr exactly if one of its attempts was answered with noErr |
| ScsiLists.SendsAre | src/SCSIManager.c:545-588 | the attempts made are those from the first to the last, in order |
| ScsiQueue.CodeOfReply | src/SCSIManager.c:208-219 | the completion code of every reply, as a number, and that only the two time-outs are tried again |
| ScsiQueue.CodesApart | src/SCSIManager.c:208-219 | success is the code of one answer only, and the answers from 0 to -5 all have codes of their own |
| ScsiQueue.ExecuteIs | src/SCSIManager.c:545-588 | what the state machine's Execute step does, told by the reply |
| ScsiQueue.EntryPlacesAfter | src/SCSIManager.c:223-351 | the exact effect of every step on the number of places an entry is in |
| ScsiQueue.RequestPlacesAfter | src/SCSIManager.c:223-351 | the same for requests |
| ScsiQueue.StepKeepsParted | src/SCSIManager.c:507-595 | a step keeps every entry and every request in exactly one place if and only if it is not the completion of a head whose timer expired |
| ScsiQueue.StepKeepsCounted | src/SCSIManager.c:545-588 | a queued request has been sent to the bus once for each retry it counts |
| ScsiQueue.NeverNonZeroStatus | src/SCSIManager.c:208-219 | no command ends with the status that asks for sense data |
| ScsiQueue.EveryRunIsSafe | src/SCSIManager.c:208-595 | in every interleaving of submitters and worker without an expired timer: every entry in exactly one place, every request completed at most once, sent at most 1 + maxRetries times and at least once before it completes, the sense branch never reached |
| ScsiQueue.FirstInFirstOut | src/SCSIManager.c:507-595 | without head inserts requests complete in the order they were queued, despite retries |
| ScsiQueue.ExpiredTwice | src/SCSIManager.c:518-536 | one expired timer is enough to complete a request twice |
| ScsiQueue.WorkerProgresses | src/SCSIManager.c:507-595 | every step of the worker leaves it less to do, so retrying at the head cannot go on for ever |
| ScsiRefinement.AllocateStep | src/SCSIManager.c:223-272 | allocating an entry for a request is the machine's Allocate step |
| ScsiRefinement.LinkStep | src/SCSIManager.c:274-291 | linking it, at either end, is the Link step |
| ScsiRefinement.PickStep | src/SCSIManager.c:507-545 | taking the head off the queue is the Pick step |
| ScsiRefinement.ExecuteStep | src/SCSIManager.c:545-580 | sending the command, and counting a retry if there is to be one, is the Execute step |
| ScsiRefinement.RequeueStep | src/SCSIManager.c:566-580 | putting the entry back at the head is the Requeue step |
| ScsiRefinement.CompleteStep | src/SCSIManager.c:322-351 | completing a request is a Complete and then a Release step |
| ScsiRefinement.ReleaseStep | src/SCSIManager.c:239-246 | freeing an entry is the Release step |
| ScsiRefinement.InHandIsOut | src/SCSIManager.c:223-351 | an entry that a submitter or the worker has in hand is in neither linked list, because the machine keeps every entry in one place |
| ScsiRefinement.WorkerTurn | src/SCSIManager.c:507-595 | one turn of the worker's loop on the linked lists is one run of the machine, after which every entry and request is in one place again |
| Calendar.DayNumbersAreExact | src/FileManager.c:1607-1614 | 1 January 1970 is day 0 and the successor of every valid Gregorian date, in any year, has the next number |
| Calendar.EraYears | src/FileManager.c:1608-1613 | the truncating era arithmetic gives the days before 1 March of every year, negative years included |
| Calendar.YearLength | src/FileManager.c:1608-1613 | years so counted have 366 days exactly if they end in a leap February |
| Calendar.UnixRoundTrip | src/FileManager.c:1625-1638 | Unix time survives the way to Mac time and back exactly if it is no time between 1904 and 1970 |
| Calendar.MacRoundTrip | src/FileManager.c:1625-1638 | Mac time survives the way to Unix time and back exactly from 1970 on |
| Calendar.NextDaySameTime | src/FileManager.c:1594-1623 | from 1970 on one day later is 86400 seconds more of Mac time, in 32 bits |
| Calendar.EpochIs | src/FileManager.c:1625-1629 | the offset of Mac time is the seconds from 1 January 1904 to 1 January 1970 |
| Calendar.CurrentIs | src/FileManager.c:1594-1623 | the Mac time of every moment from 1970 on is the number of seconds since 1 January 1904, in 32 bits; before 1970 it stands still |
| Calendar.NextSecondCounts | src/FileManager.c:1594-1623 | from 1970 on one second later is one more, midnights and ends of years included |

## Left out

- VolumeControl.VCB.Allocate: a hint beyond the bytes the bitmap array holds is excluded by a precondition, as it is in FileControl.ExtendFile, FilePosition.SetEOF and ForkIO.WriteFork; an array one byte longer than the bitmap excludes no file (SearchHint.HintOutOfReach).
- FileControl.MapBlock: files with overflow extents are not modelled. The overflow B-tree of the repository is a stub whose search always fails, and an insert is modelled as refused; so the missed first block of an overflow record and the record that is not written back after a partial cut are not here.
- FileControl.TruncateFile: only for resident files, whose physical length is the block size times their blocks.
- VolumeRuns.RunKeepsSound: for bitmap writes that succeed; the methods, WriteLaws and the laws of failed growth and truncation also cover a failing write, which leaves the run marked or cleared.
- WriteLaws.WriteThenRead: for a run that does not merge early; one that does moves bytes (ForkLaws.EarlyMergeMovesBytes).
- ForkIO.ReadFork, ForkIO.WriteFork: device transfers and memory allocation succeed; the disk is an array of bytes.
- Volume and file dirty flags, locks, log output, null pointer checks and the file number lookup.
- FSAllocate, whose use of the duplicated length field has no clear intent; the catalog, B-tree and cache stubs.
- ResourceReader.GetResource: the built-in resource fork that is registered on first use, and the handle that is allocated for the data.
- ResourceWriter.BuildNames: each name comes with its encoding; the Mac Roman code table is not modelled.
- The manifest parser of gen_rsrc.py and its pattern conversions: data formats without a reader in the repository.
- VariableTable.VarTable.Remember: room in the entry table is a precondition, because the source does not check it; the decoder reports the case as an outcome of its own (Overruns.EntryOverrunExactly).
- VariableTable.VarTable.constructor: sizes above 65535, for which the source leaves the table uninitialised, and how the sizes are derived from the header.
- DecompressContext.Context.HandleExtended: the numbers of the extended operations are not defined in the repository; the model numbers them in the order of the dispatch. Sizes are far below 2^32, so position sums do not wrap.
- The dcmp 0 main loop, whose reuse branches are unreachable behind its constant words; the byte table loading and the plain byte expansion of dcmp 2; checksums, statistics and the decompression cache.
- DecompressContext.Context.ProcessBitmap: a last run of more than 32 words shifts by a negative count, and a missing second length byte is read past the input; both are outcomes of their own (Overruns.BitmapOverruns).
- Sort.Qsort: the comparator is a function of the two elements; null arguments are not modelled.
- Printf.VsnPrintf: fmt_double is an arbitrary function to text; an argument that is missing or of another kind reads as 0 or null; int arithmetic on widths and precisions does not overflow; a null format is not modelled.
- NumberFormat.ReadLong: overflow, undefined in C, wraps around as the machine does.
- strtok with its static state, strcspn, strsep, bsearch, floating point, string and character helpers.
- ScsiQueue.EveryRunIsSafe: runs with an expired timer are excluded (StepKeepsParted says why); autosense data, the Quantum workaround, scatter/gather, request validation, functions other than SCSIExecIO and shutdown are not modelled.
- ScsiQueue.FirstInFirstOut: a request queued at the head overtakes others by design.
- ScsiLists.SCSIManager.ProcessIOQueue: submissions during the loop are the state machine's subject, not this method's.
- Calendar.DayNumbersAreExact: years are unbounded integers; reading the clock is not modelled.
