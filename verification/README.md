# MicroKernel: a verified model of its cores

This project models five cores of a small x86 microkernel and proves what they are for:
the DEFLATE/PNG decoder (`src/image.c`), synchronous IPC and the preemptive scheduler
(`src/ipc.c`, `src/task.c`), the FAT16 and NTFS structures (`src/fat16.c`, `src/ntfs.c`),
the kernel heap (`src/heap.c`), and frames, page tables and ELF loading (`src/pmm.c`,
`src/paging.c`, `src/elf.c`). `dafny verify dfyconfig.toml` checks everything.

## Reading order

| area | modules | main results |
|---|---|---|
| DEFLATE, PNG | Bits, BitReader, Huffman, HuffmanTree, Deflate, DeflateRoundTrip, DeflateFormat, InflateScan, Inflate, InflateTheorem, DeflateExamples, Png | `InflateTheorem.DecompressParsed`, `InflateTheorem.DecompressEncoded`, `DeflateRoundTrip.StreamReads`, `Huffman.DecodeExactly`, `DeflateFormat.FixedCodewords`, `DeflateExamples.DynamicExample`, `Png.UnfilterImage`, `Png.ScanlinesDecode` |
| IPC, scheduler | Kernel, KernelSafety, KernelCalls, IpcHistory, IpcProtocol, Scheduler, Sleepers, Notifications, Servers, KernelImpl | `KernelSafety.EveryReachableState`, `IpcHistory.ReturnedCallsAreComplete`, `IpcProtocol.RequestReplyTheorem`, `Servers.LoopsAreDisciplined`, `Scheduler.TopTasksShareTheProcessor`, `Sleepers.SleepersWake` |
| heap | HeapModel, Heap | `HeapModel.EveryReachableHeap`, `HeapModel.ReleaseUndoesTake`, `HeapModel.FailsOnlyWhenFull` |
| FAT16 | FatChains, FatNames, FatDirectory, FatData, FatVolume, FatTheorems, FatReadWrite, FatShortNames, FatStaleNames, FatAliases, FatDisk, FatLayout, FatDriver, FatHistory | `FatTheorems.EveryHistoryKeepsOwnership`, `FatHistory.RunOps`, `FatReadWrite.WriteThenRead`, `FatShortNames.ShortWriteThenReadAny`, `FatStaleNames.StaleRunRenames`, `FatAliases.AliasesCollide`, `FatReadWrite.OthersUntouched`, `FatNames.LongNameRoundTrip` |
| NTFS | LittleEndian, Strings, Search, NtfsFixup, NtfsRuns, NtfsIndex, NtfsIndexEdit, NtfsRemove, NtfsEntry, NtfsLayout, NtfsDriver, NtfsRecord | `NtfsFixup.TornWriteIsRejected`, `NtfsRuns.ListParses`, `NtfsIndexEdit.InsertTheorem`, `NtfsRemove.RemoveTheorem`, `NtfsIndexEdit.RemoveUndoesInsert`, `NtfsEntry.InsertThenRemove`, `NtfsEntry.LookUpInserted`, `NtfsRecord.InsertOnDisk`, `NtfsRecord.RemoveOnDisk` |
| memory | Pmm, Paging, PagingSpace, PagingIsolation, PagingRights, Elf, ElfSharing, ElfRights, PagingImpl | `PagingSpace.SpaceLifecycle`, `PagingIsolation.IsolationIsExact`, `Elf.ElfImage`, `Elf.LoadSucceeds`, `Elf.FailedLoadKeepsFrames`, `ElfSharing.SecondProgramShowsThrough`, `PagingRights.MappedPageRights`, `ElfRights.LoadedRights` |

How the parts are built:

- Code that changes state in place is a class or a method on arrays (`BitReader.Reader`,
  `HuffmanTree.Tree`, `Inflate.Decoder`, `KernelImpl.System`, `Heap.KernelHeap`,
  `FatDriver.Volume`, `NtfsFixup.ApplyFixup`, `NtfsDriver.InsertIndexEntry`,
  `Pmm.FrameAllocator`, `PagingImpl.Memory`). Each method's `ensures` ties the new state to
  a function of the old one; the theorems are about those functions.
- The DEFLATE decoder is proved against two independent definitions: a grammar that parses
  a bit stream into blocks, and an encoder from blocks to bits. `DeflateRoundTrip` proves
  that they are inverse to each other. `InflateScan` says what the decoder makes of any bit
  stream, truncated ones and full outputs included, and proves that this is the grammar's
  reading wherever the grammar gives a verdict (stored blocks apart); `Inflate` proves that
  the imperative decoder follows it.
- IPC calls are atomic steps up to `task_yield` (gate 0x80 is an interrupt gate,
  `src/idt.c:108`); histories of calls are ghost state, one record per call.
- A FAT16 volume is the triple of table, root directory slots and data sectors; `FatDisk`
  relates it to the sectors of the disk, including the second table. The disk is a reliable
  array of 512-byte sectors.
- Physical memory is a sequence of 4096-byte frames; directories and page tables are words
  inside those frames.
- Definitions that a specification and its implementation share (code tables, field offsets,
  flag bits, attribute bytes) are stated once more in other terms: as the codewords of RFC
  1951 (`DeflateFormat`), as streams and names given byte by byte (`DeflateExamples`,
  `FatLayout`, `NtfsLayout`), as addresses on the disk (`FatLayout`), as the bits of a page
  table entry (`PagingRights`), and as what each kernel call does to the fields of the process
  table (`KernelCalls`).

## What the proofs found

Each of these is stated by a member of the table below.

- A stored DEFLATE block that overruns the output buffer is not skipped to its end
  (`Inflate.StoredBlock`: the reader stands behind the block if and only if it fits or is
  empty), so the decoder goes on inside it. For every stream the format accepts, the result
  is the clipped expansion exactly when no stored block but the last is cut or the bytes
  behind the first cut happen to read as a stream, and -1 otherwise
  (`InflateTheorem.DecompressParsed`), provided that the bytes behind the first cut describe
  no over-subscribed code and no block that never ends. Distances behind the cut do not
  matter, since the output is full (`InflateScan.FullIgnoresDistances`).
  `InflateTheorem.CutExample` is a stream of eleven bytes on which the decoder fails.
- A compressed block that is still running when the input ends goes on in zeros for ever if
  the code of zeros is a literal or a length: no end of the block and no error can follow
  (`InflateScan.EndlessBehindTheEnd`). All other truncated streams end, and
  `Inflate.Decoder.Decompress` says how.
- A request that a server has received is not consumed (`IpcProtocol.RequestIsNotConsumed`)
  and anyone can answer it (`IpcProtocol.AnyoneCanReply`): the request/reply theorem needs
  the discipline of `include/server.h:14-22`.
- The server loops of `src/servers.c` keep that discipline if and only if none of them drops
  a request because its type is MSG_IRQ_NOTIFY (`Servers.LoopsAreDisciplined`), which never
  happens while no sendrec has that type (`Servers.NoSuchRequestNoTrouble`). A client that
  makes such a request of a server with a case for notifications is never answered, and
  the server receives the request again without end (`Servers.SpinsForever`).
- `task_sleep` multiplies milliseconds by 100 in 32 bits: it sleeps one tick for every ten of
  them if and only if there are at most 42949672 (`Sleepers.SleepTicksMeaning`).
- `find_next_task` skips the running process even when no other of its priority can run
  (`Scheduler.LoneTopTaskGivesWay`).
- Stored notifications are filed under the PID modulo 32, so they reach whoever has that
  residue (`Notifications.NoteGoesByResidue`): always the right process while at most 32
  PIDs have been issued (`Notifications.TakenByResidue`), and the wrong one in the run of
  `Notifications.WrongReceiver`.
- A `kmalloc` request above 2^32 - 8 rounds to 0 (`HeapModel.RoundingHoldsRequest`).
- The loop that looks for a free number for a generated 8.3 name adds 32 to every byte of the
  candidate, tilde and digits included, and so sees no collision: among ASCII names every
  long name gets number 1 (`FatAliases.NumberIsOne`), and two files whose names begin alike
  are stored under the same 8.3 name (`FatAliases.AliasesCollide`; "abcdefg" and "abcdefh" in
  `FatAliases.AliasExample`).
- `fat16_write_file` deletes an existing file before it stores the new one; when that fails,
  the old file is gone (`FatReadWrite.FailedOverwriteLoses`).
- An NTFS entry built for a name answers to that name if and only if all its bytes are ASCII;
  the others come back as question marks (`NtfsEntry.BuiltAnswers`).
- A FAT16 file whose short entry would start with 0xE5 is written but looks deleted: it
  cannot be read and its clusters are lost (`FatReadWrite.WriteThenRead` and
  `FatReadWrite.LooksDeletedLeaks` give the exact condition). An 8.3 name ending in a dot is
  stored without it and not found again (`FatShortNames.ShortWriteThenRead`). The long-name slots of a
  deleted file stay behind: after a write under an 8.3 name, any other name reads the new
  file if and only if the fields spell it or the run collected in front of the slot does
  (`FatShortNames.ShortWriteThenReadAny`), and on every volume in which nothing was deleted
  before, writing a long name, deleting it and writing an 8.3 name makes the deleted name
  read the new file (`FatStaleNames.StaleRunRenames`, at a concrete volume
  `FatStaleNames.StaleRunExample`).
- `elf_load` places segments at `USER_BASE` = 0xC0000000 and above, where "isolated" spaces
  share the kernel's page tables. A mapping is private if and only if its directory index is
  256 to 767, for older and younger observers alike (`PagingIsolation.IsolationIsExact`), so
  any two loaded programs have all user pages in common: after loading program 1 and then
  program 2, program 1 finds program 2's byte at each of its addresses whose page program 2
  uses too, and its own byte elsewhere (`ElfSharing.SecondProgramShowsThrough`); the four
  stack frames are always common (`ElfSharing.StackIsShared`). The comments at
  `include/elf.h:9-16` and `src/elf.c:13-16` promise isolation; the model follows the code.
- Every load clears the kernel's own page at 0x3FD00000 for everybody
  (`Elf.LoaderPageUnmapped`).
- A load that fails destroys the space but keeps one frame in use for every page it had
  loaded; the bitmap is as before if and only if there was none
  (`Elf.FailedLoadKeepsFrames`, which gives the number).
- When a page table is missing and no frame is left, `paging_map_user` clears frame 0 and
  uses it as the table (`PagingIsolation.FrameZeroBecomesTable`). Loading a program never
  gets there (`Elf.LoadSegmentsKeeps`).
- When the rounded end of a range passes 2^32, `pmm_reserve_range` reserves nothing, or, for
  sizes within a page of 2^32, at most the page the range starts in; an empty range that
  starts inside a page reserves that page (`Pmm.ReserveMeaning`, for all 32-bit arguments).

## Model

| member | source | states |
|---|---|---|
| `BitReader.Reader.Read` | src/image.c:159-169 | returns the next n stream bits, first bit least significant, and moves exactly n bits on, zeros past the end; fewer than 8 bits stay buffered |
| `BitReader.Reader.LoadStep` | src/image.c:160-164 | fetching one byte keeps the position and extends the buffered window by that byte |
| `BitReader.Reader.Align` | src/image.c:327 | dropping the buffered bits moves to the next byte boundary and never past it |
| `BitReader.AppendByte` | src/image.c:161-163 | ORing a byte above the buffered bits gives the value of the longer bit window |
| `BitReader.ShiftFits` | src/image.c:162 | shifting a byte by at most 24 places loses no bit in 32 |
| `Huffman.PrefixFree` | src/image.c:223-240 | the codewords of two symbols are never prefixes of each other when the Kraft sum is at most 1 |
| `Huffman.CodeInterval` | src/image.c:223-240 | a code value times its interval size is where its interval starts; intervals stay below 2^15 and values fit their length |
| `Huffman.IntervalsOrdered` | src/image.c:223-240 | the intervals of different symbols do not overlap and come in canonical order |
| `Huffman.SameLengthConsecutive` | src/image.c:230-239 | first rule of section 3.2.2 of RFC 1951: codes of one length are consecutive in symbol order |
| `Huffman.ShorterFirst` | src/image.c:230-239 | second rule: shorter codes precede longer ones lexicographically |
| `Huffman.FirstCodeBase` | src/image.c:228-233 | the counting recurrence starts each length exactly where the shorter codes end |
| `Huffman.CountingIsCanonical` | src/image.c:228-239 | first code plus rank by counting is the canonical code value |
| `Huffman.CountersSmall` | src/image.c:228-239 | the code counters never exceed 2^15 |
| `Huffman.CodesComplete` | src/image.c:223-240 | every symbol with a length has its codeword in the table, mapped to itself |
| `Huffman.CodesSound` | src/image.c:223-240 | every table entry is the codeword of its symbol |
| `Huffman.CodesPrefixFree` | src/image.c:223-240 | the table of a whole alphabet is prefix-free with codewords of 1 to 15 bits |
| `Huffman.FindCodeUnique` | src/image.c:210-220 | in a prefix-free table at most one prefix of the stream is a codeword, and it is the one found |
| `Huffman.DecodeExactly` | src/image.c:210-240 | decoding yields s after exactly lens[s] bits if and only if the stream continues with the codeword of s |
| `HuffmanTree.Tree.Init` | src/image.c:186 | gives an empty tree |
| `HuffmanTree.Tree.Insert` | src/image.c:188-207 | adds exactly the codeword to the set the tree represents, with at most len - 1 new nodes |
| `HuffmanTree.Tree.Build` | src/image.c:223-240 | the tree represents exactly the canonical code and stays below HT_MAX nodes for alphabets up to 320 symbols |
| `HuffmanTree.Tree.Decode` | src/image.c:210-220 | returns the symbol whose codeword the stream starts with and consumes exactly that codeword; -1 when there is none |
| `HuffmanTree.CountLengths` | src/image.c:224-227 | counts the codes of each length |
| `HuffmanTree.FirstCodes` | src/image.c:228-233 | the first code value of each length |
| `HuffmanTree.SlotOnFreshPath` | src/image.c:188-207 | a slot on the path of a codeword that is free and not a prefix of another is empty or an inner node |
| `HuffmanTree.GrowKeeps` | src/image.c:188-207 | hanging a new node under an empty slot keeps every represented codeword |
| `HuffmanTree.SetLeafKeeps` | src/image.c:188-207 | setting a leaf adds one codeword and keeps the others |
| `HuffmanTree.SlotMeaning` | src/image.c:210-220 | what an empty slot, a leaf and an inner node say about the codewords the stream can still match |
| `HuffmanTree.WalkDecodes` | src/image.c:210-220 | the bit-by-bit walk finds the codeword the stream starts with |
| `Deflate.CopyMeaning` | src/image.c:296-299 | every copied byte equals the one `distance` places before it, also when the copy overlaps its own output |
| `Deflate.FixedCodable` | src/image.c:246-261 | the fixed code lengths form complete codes: their Kraft sums are exactly 1 |
| `DeflateFormat.FixedCodewords` | src/image.c:246-261 | the code table of section 3.2.6 of RFC 1951, codeword by codeword: 8 bits of 48 + s, 9 bits of 400 + (s - 144), 7 bits of s - 256, 8 bits of 192 + (s - 280), and plain five-bit distances |
| `DeflateFormat.CodeLengthOrder` | src/image.c:344-346 | the length for code-length symbol s is the one sent at its place in the order of section 3.2.7 of RFC 1951, 0 when it was not sent |
| `DeflateFormat.CodeLengthSymbols` | src/image.c:357-373 | what each code-length symbol and its extra bits add: a length, the last one 3 to 6 times, 3 to 10 or 11 to 138 zeros |
| `DeflateFormat.RunLengths` | src/image.c:357-373 | a length and a repetition give it 4 + x times; the zero runs are 3 + x and 11 + x long |
| `DeflateFormat.ExtraBitCounts` | src/image.c:264-279 | how many extra bits each length and distance symbol has |
| `DeflateExamples.FixedExample` | src/image.c:334-337 | the stream 4B 04 00 stands for the byte 0x61 |
| `DeflateExamples.DynamicExample` | src/image.c:338-381 | a dynamic block of fifteen bytes, its code lengths in the permuted order, stands for five times 0x61 |
| `Deflate.ParsedTokensReach` | src/image.c:281-309 | no parsed match reaches back before the start of the output |
| `DeflateRoundTrip.TokensRead` | src/image.c:281-309 | a block body parses to tokens ending at bit q if and only if the buffer carries exactly their encoding |
| `DeflateRoundTrip.OpsSound` | src/image.c:354-374 | parsed code-length operations are spelled by the bits they were read from |
| `DeflateRoundTrip.OpsComplete` | src/image.c:354-374 | encoded code-length operations parse back to themselves |
| `DeflateRoundTrip.TreesSound` | src/image.c:340-377 | a parsed dynamic header is spelled by its bits |
| `DeflateRoundTrip.TreesComplete` | src/image.c:340-377 | an encoded dynamic header parses back to itself |
| `DeflateRoundTrip.StoredReads` | src/image.c:325-333 | a stored block parses if and only if the buffer carries its padding, lengths and bytes |
| `DeflateRoundTrip.FixedReads` | src/image.c:334-337 | the same for a block with the fixed code |
| `DeflateRoundTrip.DynamicReads` | src/image.c:338-381 | the same for a block with its own code |
| `DeflateRoundTrip.BlockReads` | src/image.c:321-387 | a block of any kind parses exactly from its encoding, and its type bits are determined |
| `DeflateRoundTrip.StreamReads` | src/image.c:313-391 | a buffer parses to a block list ending at bit q if and only if the list is valid and the buffer carries exactly its encoding up to q |
| `Inflate.CopyMatch` | src/image.c:296-299 | while the output has room the byte-by-byte copy produces the LZ77 copy, clipped to the output size; once it is full nothing is copied, whatever the distance |
| `Inflate.CopyToken` | src/image.c:296-299 | the copy loop adds what the token delivers, clipped |
| `Inflate.PutByte` | src/image.c:286-287 | appends one byte unless the output is full |
| `Inflate.ReadMatch` | src/image.c:290-295 | length and distance are those of the match read, and exactly its bits are consumed; refused exactly when the distance symbol is missing or above 29 |
| `Inflate.DecodeItem` | src/image.c:284-301 | one symbol extends the output by what the token delivers, ends the block, or reports an error |
| `Inflate.DecodeBlock` | src/image.c:281-309 | outputs exactly what the tokens of the block deliver and consumes exactly its bits, reading zeros behind the end of the input; -1 exactly on malformed input |
| `Inflate.StoredBlock` | src/image.c:325-333 | outputs the stored bytes, clipped to the output; the reader ends behind the block if and only if the block fits or is empty; data behind the end of the input is zeros |
| `Inflate.CopyStored` | src/image.c:331-333 | copies the bytes that fit, zeros behind the end of the input, and moves exactly as many bytes on |
| `InflateScan.StoredCut` | src/image.c:331-333 | the decoder takes a stored block whole exactly when it fits or is empty; what it leaves out has no room in the output |
| `InflateScan.SameTokens` | src/image.c:281-309 | wherever the grammar gives a verdict on a list of tokens, the decoder reads the same tokens, for every output limit |
| `InflateScan.SameTrees` | src/image.c:340-377 | the same for the header of a dynamic block |
| `InflateScan.SameBlock` | src/image.c:321-390 | the same for every compressed block |
| `InflateScan.TokensAgree` | src/image.c:281-309 | tokens whose matches reach back inside the output deliver the bytes of their expansion as far as the output goes |
| `InflateScan.FullIgnoresDistances` | src/image.c:296-299 | once the output is full no distance leaves the decoder without a defined reading |
| `InflateScan.EndlessBehindTheEnd` | src/image.c:281-309 | a token read behind the end of the input is followed by tokens only, wherever the reader stands and however much was produced |
| `Inflate.ReadOp` | src/image.c:357-373 | applies the parsed code-length operation, runs clipped at the total |
| `Inflate.ReadLens` | src/image.c:351-374 | all code lengths, run-length coding expanded |
| `Inflate.ReadClLens` | src/image.c:344-346 | code-length code lengths in their permuted places |
| `Inflate.ReadTrees` | src/image.c:340-377 | both length lists of a dynamic header, and exactly its bits consumed |
| `Inflate.FixedBlock` | src/image.c:334-337 | outputs what a block in the fixed codes delivers |
| `Inflate.DynamicBlock` | src/image.c:338-381 | outputs what a dynamic block delivers |
| `Inflate.RunBlocks` | src/image.c:321-390 | follows the stream as the decoder reads it, stored blocks cut at the output limit and zeros behind the end included: -1 or the clipped bytes, and the exact position |
| `Inflate.Decoder.BuildFixedTrees` | src/image.c:246-261 | after it the two trees represent the fixed codes |
| `Inflate.Decoder.Decompress` | src/image.c:313-391 | for every output limit and every stream, truncated ones included, that as the decoder reads it has no over-subscribed code, no distance before the start of the output while there is room, and no endless block: -1 exactly when it is malformed, otherwise the LZ77 bytes clipped to omax, consuming exactly the bits read; nothing behind the result changes |
| `InflateTheorem.CutStream` | src/image.c:321-390 | what the decoder reads of a stream the format accepts: the very same blocks when no stored block is cut; to its end when only the last one is; otherwise a stream, or an error, exactly as the bytes behind the first cut are; the output bytes agree whenever it reads to an end, and a stream whose expansion fits is never cut |
| `InflateTheorem.DecompressParsed` | src/image.c:313-391 | for every stream the format accepts and every output limit, the bytes behind the first cut (if any) describing neither an over-subscribed code nor an endless block: the clipped expansion if and only if no non-final stored block is cut or the bytes behind the first cut read as a stream, -1 otherwise |
| `InflateTheorem.CutExample` | src/image.c:331-333 | an eleven-byte stream the format accepts and the decoder rejects when the output has no room |
| `InflateTheorem.DecompressEncoded` | src/image.c:313-391 | decompressing the encoding of any valid block list, followed by anything, gives exactly its expansion and consumes exactly its bits |
| `InflateTheorem.TablesContiguous` | src/image.c:264-279 | consecutive length and distance symbols cover consecutive ranges |
| `InflateTheorem.DistanceEncodings` | src/image.c:271-279 | every distance from 1 to 32768 has exactly one symbol |
| `Png.Paeth` | src/image.c:409-417 | the nearest of left, above and upper-left to their gradient, ties in that order |
| `Png.UnfilterRow` | src/image.c:526-541 | on any scanline, in place: each byte is the stored one plus, modulo 256, the byte one pixel to the left, the byte above, half their sum, or the Paeth choice, as filters 1 to 4 say; for any other filter the stored one; nothing behind the row changes |
| `Png.UnfilterImage` | src/image.c:514-541 | on any data that is long enough: every row is what its scanline means below the row above it, zeros above the first |
| `Png.RestoredIffFiltered` | src/image.c:526-541 | a row is what a scanline means if and only if the scanline is the row filtered as RFC 2083 sections 6.2 to 6.6 say |
| `Png.RestoredOnce` | src/image.c:526-541 | a scanline means one row only |
| `Png.ScanlinesDecode` | src/image.c:514-541 | decoding the scanlines of an image, whatever filter each row uses and whatever follows, gives the image and nothing else |
| `KernelSafety.SendKeeps` | src/ipc.c:59-91 | ipc_send keeps the invariant: at most one RUNNING process and it is the current one, unique PIDs, no missed rendezvous |
| `KernelSafety.SendRecKeeps` | src/ipc.c:133-170 | ipc_sendrec keeps it |
| `KernelSafety.ReceiveKeeps` | src/ipc.c:93-131 | ipc_receive keeps it |
| `KernelSafety.ReplyKeeps` | src/ipc.c:172-191 | ipc_reply keeps it |
| `KernelSafety.NotifyKeeps` | src/ipc.c:193-213 | ipc_notify keeps it |
| `KernelSafety.TickKeeps` | src/task.c:336-389 | a timer tick, with waking and switching, keeps it |
| `KernelSafety.CreateKeeps` | src/task.c:124-150 | process creation keeps it |
| `KernelSafety.KillKeeps` | src/task.c:534-565 | termination keeps it |
| `KernelSafety.EveryReachableState` | src/task.c:271-389 | in every reachable state of every interleaving of IPC, timer, create and kill steps: at most one RUNNING process, which is current, and nobody is blocked sending to a process that is blocked in a receive accepting it |
| `KernelSafety.LeavesBlockedOnlyWhenReleased` | src/ipc.c:59-213 | a live process other than PID 0 leaves BLOCKED only by a matching receive, delivery, reply or notification, or by termination |
| `KernelSafety.TickKeepsBlocked` | src/task.c:271-389 | the timer and the scheduler never touch a blocked process other than slot 0 |
| `KernelCalls.SendMeaning` | src/ipc.c:59-91 | who wants the message has it, with its sender filled in and all else unchanged, and can run; otherwise the caller is stuck with it; nobody else is touched |
| `KernelCalls.SendRecMeaning` | src/ipc.c:133-170 | the same delivery, and the caller is stuck in either case |
| `KernelCalls.ReceiveMeaning` | src/ipc.c:93-131 | a stored notification first, then the first process in table order stuck sending to the caller; a plain sender can run again, a sendrec waits on; otherwise the caller is stuck |
| `KernelCalls.ReplyMeaning` | src/ipc.c:172-191 | a process stuck in a sendrec gets the answer and can run; nothing changes otherwise |
| `KernelCalls.NotifyMeaning` | src/ipc.c:193-213 | a receiver gets the message from sender 0, whomever it waits for; for others it is stored at the PID modulo 32 |
| `KernelCalls.NoSuchProcess` | src/ipc.c:59-213 | calls that name no live process change nothing |
| `KernelCalls.CreateMeaning` | src/task.c:124-150 | the first free slot gets a READY process with the next PID, its priority and quantum and a full slice; nothing when the table is full |
| `KernelCalls.EndMeaning` | src/task.c:491-565 | kill and exit end exactly one process, never the one in slot 0 |
| `KernelCalls.SwitchMeaning` | src/task.c:369-389 | the picked process is RUNNING with a full slice, the one that was RUNNING is READY, nobody else changes |
| `KernelCalls.LockedTick` | src/task.c:336-346 | while the scheduler is locked or preemption is off a tick only counts |
| `KernelCalls.SmallCalls` | src/task.c:457-482 | yielding ends the slice of the caller; locks are counted |
| `KernelCalls.StartState` | src/task.c:23-47 | one process, PID 0 with priority 10, running with a full slice |
| `IpcHistory.HistoryKeeps` | src/ipc.c:59-213 | every step keeps the agreement between the table and the call histories |
| `IpcHistory.HistoryInvariant` | src/ipc.c:59-213 | that agreement holds along every run |
| `IpcHistory.ReturnedCallsAreComplete` | src/ipc.c:59-131 | in every run, a plain send that returned handed its unmodified message to its destination exactly once, and a receive that returned got exactly one message, from the PID it named or from the kernel, which after a wait is what its buffer holds |
| `IpcHistory.ReceiveIsRecorded` | src/ipc.c:93-131 | a receive that returns at once returns exactly the message its record lists |
| `IpcHistory.SendsAreRecorded` | src/ipc.c:59-170 | the record of a send or sendrec holds the caller, the destination and the message handed in, with the caller as sender |
| `IpcHistory.RepliesAreRecorded` | src/ipc.c:172-191 | the answer recorded for a waiting client is the message handed in, with the server as sender |
| `IpcProtocol.ProtocolKeeps` | src/ipc.c:93-191 | every disciplined step keeps the protocol invariant |
| `IpcProtocol.ProtocolInvariant` | include/server.h:14-22 | the protocol invariant holds along every disciplined run |
| `IpcProtocol.RequestReplyTheorem` | src/ipc.c:93-191 | under the documented discipline, with any number of clients and servers, a sendrec that returned was received exactly once, unmodified, by the server it named, and carries the one reply that server made while holding exactly this request |
| `IpcProtocol.PendingRequestReceivedAtMostOnce` | src/ipc.c:133-170 | a request still waiting has been received at most once, by its server |
| `IpcProtocol.RequestIsNotConsumed` | src/ipc.c:93-131 | a server that receives again without replying gets the same request again |
| `IpcProtocol.AnyoneCanReply` | src/ipc.c:172-191 | ipc_reply answers a waiting request whoever calls it |
| `Notifications.NoteGoesByResidue` | src/ipc.c:93-103 | a stored notification is taken by the next receiver whose PID agrees with the destination modulo 32, and by nobody else |
| `Notifications.TakenByResidue` | src/ipc.c:193-214 | in every run the taker and the destination have the same residue, and are the same process while at most 32 PIDs have been issued |
| `Notifications.WrongReceiver` | src/ipc.c:193-214 | a run in which PID 1 takes the notification for PID 33, both alive |
| `Servers.StepPlace` | src/servers.c:43-98 | every step keeps what a server knows about the request it holds: idle servers hold none, busy ones the one they received |
| `Servers.LoopDisciplined` | src/servers.c:199-250 | a step of a server loop is disciplined if and only if it does not drop a request of the notification type |
| `Servers.LoopsAreDisciplined` | src/servers.c:40-292 | any number of server loops among disciplined clients: the run is disciplined if and only if no server drops a request because of its type |
| `Servers.CleanRun` | src/servers.c:40-292 | while no sendrec has the notification type, no waiting or held request has it and none is dropped |
| `Servers.NoSuchRequestNoTrouble` | src/servers.c:40-292 | a run without sendrecs of the notification type is disciplined |
| `Servers.SpinsForever` | src/servers.c:49-91 | for every n a run in which a server receives the same request n times without answering it |
| `Scheduler.NextTaskMeaning` | src/task.c:271-311 | the best-priority runnable process other than the current one, nearest in cyclic order; the current one only when there is no other, slot 0 when nothing can run |
| `Scheduler.SwitchStaysInTop` | src/task.c:271-311 | among two or more ready processes of best priority a switch goes to the nearest other one |
| `Scheduler.FewerAhead` | src/task.c:271-311 | each switch that passes over a process leaves fewer ahead of it |
| `Scheduler.OnlyTicksSwitch` | src/task.c:336-389 | the processor changes hands only in a tick that ends a time slice, and goes to the process picked from the table with sleepers woken |
| `Scheduler.TopWhenDeciding` | src/task.c:271-389 | the best processes after a switch were the best when it was decided |
| `Scheduler.QueueShrinks` | src/task.c:271-389 | in a run, each decision that passes over a process leaves fewer ahead of it |
| `Scheduler.RunsWithinDecisions` | src/task.c:271-389 | while k >= 2 processes stay the best ready ones, each gets the processor within k decisions |
| `Scheduler.DecisionsKeepUp` | src/task.c:336-389 | with quanta of at most q ticks and preemption on, n decisions take at most q * (n + 1) ticks, whatever else happens |
| `Scheduler.TopTasksShareTheProcessor` | src/task.c:271-389 | in every run, while k >= 2 processes stay the best ready ones and no quantum exceeds q, each of them gets the processor within k * q ticks |
| `Scheduler.LoneTopTaskGivesWay` | src/task.c:282-309 | a single best-priority process is skipped for one of lower priority |
| `Scheduler.CandidateMeaning` | src/task.c:291-299 | who can be picked: a live READY or RUNNING process other than the current one, of a priority better than 0xFFFFFFFF |
| `Scheduler.SliceLasts` | src/task.c:352-389 | a process that gets the processor has it for exactly as many ticks as its quantum says, and only the last of them decides again |
| `Sleepers.SleepMeaning` | src/task.c:484-489 | the caller sleeps until now plus the ticks, its slice over, and nothing else changes |
| `Sleepers.SleepTicksMeaning` | src/task.c:487 | ten milliseconds are one tick if and only if the 32-bit product does not wrap |
| `Sleepers.DecidingTickWakes` | src/task.c:271-311 | a tick that decides wakes exactly the sleepers whose time has come; slot 0 alone may be resumed early, when nobody can run |
| `Sleepers.NobodyOversleeps` | src/task.c:274-280 | in every run, after a tick that decides no live process sleeps beyond its time |
| `Sleepers.LeavesSleepOnlyInTime` | src/task.c:271-389 | in every run a sleeper sleeps on in every step that neither kills it nor is a deciding tick at or after its time; the latter makes it ready or running |
| `Sleepers.SleepersWake` | src/task.c:271-389 | in every run with preemption on and quanta of at most q, a sleeper that is not killed sleeps without a break, not shorter than asked, and is awake before the clock has passed both its time and its falling asleep by q ticks |
| `KernelImpl.System.ByPid` | src/task.c:571-577 | the first active slot with that PID |
| `KernelImpl.System.BlockedSender` | src/ipc.c:46-57 | the first process blocked sending to the receiver that the filter admits |
| `KernelImpl.System.IpcSend` | src/ipc.c:59-91 | the table becomes that of the send step; return codes |
| `KernelImpl.System.IpcReceive` | src/ipc.c:93-131 | the table and the message become those of the receive step |
| `KernelImpl.System.IpcSendRec` | src/ipc.c:133-170 | the table becomes that of the sendrec step; return codes |
| `KernelImpl.System.IpcReply` | src/ipc.c:172-191 | the table becomes that of the reply step; return codes |
| `KernelImpl.System.IpcNotify` | src/ipc.c:193-213 | the table becomes that of the notify step; return codes |
| `KernelImpl.System.FindNextTask` | src/task.c:271-311 | wakes the sleepers whose time has come and returns the scheduled slot |
| `KernelImpl.System.TimerTick` | src/task.c:336-389 | the table becomes that of the tick step |
| `KernelImpl.System.TaskCreate` | src/task.c:124-195 | the table becomes that of the create step, or stays as it is when the memory for it is missing; the new PID or -1 |
| `KernelImpl.System.TaskKill` | src/task.c:534-565 | the table becomes that of the kill step |
| `KernelImpl.System.TaskExit` | src/task.c:491-532 | the table becomes that of the exit step |
| `KernelImpl.System.TaskSleep` | src/task.c:484-489 | the table becomes that of the sleep step for the ticks that the milliseconds give in 32 bits |
| `HeapModel.TakeKeeps` | src/heap.c:27-67 | allocation keeps the blocks tiling the arena with no two free neighbours |
| `HeapModel.TakeMeaning` | src/heap.c:27-42 | a block is split, with a 20-byte header between the parts, if and only if it is 36 bytes or more larger than wanted; otherwise it is used whole |
| `HeapModel.ReleaseKeeps` | src/heap.c:43-89 | so does release |
| `HeapModel.ReleaseUndoesTake` | src/heap.c:27-89 | freeing what was just allocated restores the exact block list |
| `HeapModel.FailsOnlyWhenFull` | src/heap.c:52-67 | first fit fails exactly when no contiguous free region, however it is cut, can hold the rounded request |
| `HeapModel.SpaceIsConserved` | src/heap.c:91-109 | free bytes, used bytes and headers add up to the arena |
| `HeapModel.PayloadsDisjoint` | src/heap.c:27-67 | payloads share no byte with any other block |
| `HeapModel.InsideArena` | src/heap.c:17-25 | every block lies in the arena |
| `HeapModel.RoundingHoldsRequest` | src/heap.c:52-55 | the rounded size holds the request exactly up to 2^32 - 8, and is 0 above |
| `HeapModel.LiveBlockPersists` | src/heap.c:52-89 | along every run a block that was allocated keeps its address and size until the step that frees it |
| `HeapModel.EveryReachableHeap` | src/heap.c:17-109 | every heap reachable by allocations and releases of live blocks is sound and loses no byte |
| `Heap.KernelHeap.Malloc` | src/heap.c:52-67 | the first fitting block is taken; NULL exactly when none fits or the request is 0; the linked headers represent the new block list |
| `Heap.KernelHeap.SplitAndTake` | src/heap.c:27-41 | splitting relinks the headers so that they represent the split list |
| `Heap.KernelHeap.Free` | src/heap.c:75-89 | the block is flagged free and merged with its free neighbours; NULL and foreign magic are ignored |
| `Heap.KernelHeap.MergeFree` | src/heap.c:43-50 | absorbs the free blocks that follow |
| `Heap.KernelHeap.Spaces` | src/heap.c:91-109 | the two counters, which with the headers add up to the arena |
| `FatChains.FreeWalk` | src/fat16.c:111-118 | releasing terminates on every in-range table, even a cyclic one, and keeps it in range |
| `FatChains.FreeChainClears` | src/fat16.c:111-118 | on a chain it clears exactly that chain |
| `FatChains.AllocateMeaning` | src/fat16.c:101-109 | the clusters taken were free, form one acyclic chain, nothing else changed, and giving up means nothing is free |
| `FatChains.AllocateEnds` | src/fat16.c:101-109 | a new chain ends with 0xFFFF and its clusters were 0 |
| `FatChains.ReleaseUndoesAllocate` | src/fat16.c:806-822 | giving the clusters of an allocation back restores the table exactly |
| `FatChains.ReleaseKeepsOwnership` | src/fat16.c:111-118 | freeing one chain leaves all others acyclic, disjoint and covering exactly the used clusters |
| `FatChains.AllocateKeepsOwnership` | src/fat16.c:101-109 | a new chain is disjoint from all others and the cover stays exact |
| `FatNames.LongNameRoundTrip` | src/fat16.c:240-273 | collecting the slots built for a name of 1 to 127 bytes without 0 and 0xFF gives back exactly that name, also for multiples of 13, whatever was collected before |
| `FatNames.ExactlyPlainNamesSurvive` | src/fat16.c:388-434 | among the names the buffers hold exactly those without 0xFF survive |
| `FatNames.BuildLong` | src/fat16.c:240-273 | the slots in disk order, last fragment first; none for names needing more than 20 |
| `FatNames.PutSlot` | src/fat16.c:592-597 | the copy loop that stops at 13 characters, the buffer end, 0 and 0xFF |
| `FatNames.FirstByteNonZero` | src/fat16.c:200-234 | the first byte of a stored short name is never the end mark |
| `FatDirectory.FindMeaning` | src/fat16.c:572-640 | a lookup finds the first entry answering to the name by its long or short name |
| `FatDirectory.NoAnswerNotFound` | src/fat16.c:572-640 | a lookup fails exactly when no entry answers |
| `FatDirectory.EraseKeepsOthers` | src/fat16.c:916-941 | deleting an entry changes for no other entry which names it answers to |
| `FatDirectory.PlaceKeepsClosed` | src/fat16.c:276-354 | adding an entry at the first fit leaves no entry behind an end mark |
| `FatDirectory.PlaceKeepsOthers` | src/fat16.c:276-354 | adding an entry changes for no other entry which names it answers to |
| `FatDirectory.PlacedAnswers` | src/fat16.c:329-354 | an entry stored with its long-name run answers to that name exactly when its first byte is not 0xE5 |
| `FatDirectory.PlacedIsFound` | src/fat16.c:572-640 | looking the name up afterwards finds the new entry, or nothing when its first byte is 0xE5 |
| `FatDirectory.FileEntryFields` | src/fat16.c:870-876 | cluster, size and attributes read back from a stored entry |
| `FatData.StoreThenRead` | src/fat16.c:824-841 | the bytes written along a chain are the bytes read along it |
| `FatData.StoreKeepsOthers` | src/fat16.c:824-841 | writing along one chain changes no byte of a disjoint chain |
| `FatData.VisitChain` | src/fat16.c:767-777 | following the table from any cluster of a chain visits the rest of the chain |
| `FatData.SameStartSameChain` | src/fat16.c:767-777 | a chain is determined by its first cluster |
| `FatTheorems.DeleteKeeps` | src/fat16.c:916-941 | deletion keeps the volume invariant: live entries' chains acyclic, disjoint, covering exactly the used clusters, nothing behind the end mark |
| `FatTheorems.FailureFreesAll` | src/fat16.c:806-822 | a write that fails, for lack of clusters or of slots, has freed all it allocated |
| `FatTheorems.CreateKeeps` | src/fat16.c:806-913 | creating a file keeps the invariant, whether it succeeds or not |
| `FatTheorems.ApplyKeeps` | src/fat16.c:782-941 | one write, overwrite or delete keeps the invariant |
| `FatTheorems.EveryHistoryKeepsOwnership` | src/fat16.c:782-941 | over any sequence of writes, overwrites and deletes the chains of live entries stay acyclic and pairwise disjoint and together cover exactly the non-free clusters |
| `FatHistory.RunOps` | src/fat16.c:782-941 | a whole session on the disk: the volume is the one the operations describe, both table copies stay equal, and ownership stays exact |
| `FatStaleNames.WriteThenDelete` | src/fat16.c:744-941 | deleting a file just written restores the allocation table exactly; no new name is found, and its long-name slots stay |
| `FatStaleNames.FreedSlotIsNext` | src/fat16.c:276-301 | where nothing was deleted before, first fit for one slot picks the slot of the deleted entry |
| `FatStaleNames.StaleRunRenames` | src/fat16.c:744-941 | on every such volume, write a long name, delete it, write an 8.3 name: reading the deleted name returns the new data |
| `FatStaleNames.StaleRunExample` | src/fat16.c:744-941 | the same at an empty two-cluster volume with the names a and B |
| `FatReadWrite.DeleteKeepsOther` | src/fat16.c:916-941 | deletion leaves the bytes of every other live file |
| `FatReadWrite.OthersUntouched` | src/fat16.c:782-914 | a write, successful or not, leaves every other live file in its slot, with the same bytes, answering to the same names |
| `FatReadWrite.CreateThenRead` | src/fat16.c:744-914 | a file created under a long name nobody answers to reads back exactly, or is not found when its entry looks deleted |
| `FatReadWrite.WriteThenRead` | src/fat16.c:744-914 | for any data and any fragmentation, when no other live entry answers to a long name, a successful write returns the size and makes a read return exactly the data if and only if the first byte of the short name is not 0xE5 |
| `FatReadWrite.LooksDeletedLeaks` | src/fat16.c:843-913 | after writing a name whose short name starts with 0xE5 no assignment of chains to entries satisfies the invariant: the clusters are lost |
| `FatReadWrite.LooksDeletedExample` | src/fat16.c:200-234 | such a name: 0xE5 followed by "a" |
| `FatReadWrite.ReadFails` | src/fat16.c:744-759 | reading fails exactly when nobody answers to the name or a directory (attribute bit 4) does |
| `FatReadWrite.DeleteMeaning` | src/fat16.c:915-940 | deleting succeeds exactly when somebody answers; then its first byte is 0xE5, its clusters are free, all other entries are unchanged, and a name only it answered to cannot be read |
| `FatReadWrite.FailedOverwriteLoses` | src/fat16.c:792-818 | when a write over an existing file fails, the old file cannot be read any more |
| `FatAliases.NumberIsOne` | src/fat16.c:848-866 | in a directory of ASCII names every long ASCII name gets number 1 |
| `FatAliases.SameAlias` | src/fat16.c:848-866 | names with the same first letters and extension get the same 8.3 name |
| `FatAliases.AliasesCollide` | src/fat16.c:848-912 | storing two such files leaves two live entries with the same 8.3 name |
| `FatAliases.AliasExample` | src/fat16.c:200-234 | such names: "abcdefg" and "abcdefh" |
| `FatLayout.TableOnDisk` | src/fat16.c:79-99 | entry c of the table is the two bytes at 2c behind the start of either table, low byte first |
| `FatLayout.RootOnDisk` | src/fat16.c:385-394 | directory slot i is the 32 bytes at 32i behind the tables |
| `FatLayout.FileOnDisk` | src/fat16.c:120-122 | where on the disk byte n of a file lies; cluster 2 is the first behind the root directory |
| `FatLayout.SlotFields` | src/fat16.c:388-417 | the meaning of the bytes of a slot: 0x00 and 0xE5, attribute 0x0F, bits 3 and 4, cluster and size |
| `FatLayout.FileEntryBytes` | src/fat16.c:870-876 | the bytes of the entry of a new file |
| `FatLayout.LongSlotBytes` | src/fat16.c:246-290 | the bytes of a long-name slot: number, 0x40, attribute 0x0F, checksum, and where its 13 characters are |
| `FatLayout.LongRunOrder` | src/fat16.c:240-290 | the last part comes first, numbered down to 1 |
| `FatLayout.ChecksumStep` | src/fat16.c:164-170 | each step rotates right by one bit and adds the next byte |
| `FatLayout.ShortNameExample` | src/fat16.c:141-170 | README.TXT is stored as "README  TXT" with checksum 0x73 |
| `FatLayout.GeneratedName` | src/fat16.c:200-234 | the bytes of a generated 8.3 name: letters, tilde, decimal number as far as it fits, spaces, extension |
| `FatLayout.ShortNameBytes` | src/fat16.c:141-162 | the bytes of an 8.3 name: capitals, cut or filled up with spaces |
| `FatLayout.FileNameMeaning` | include/fat16.h:6 | names of 1 to 127 bytes without 0 |
| `FatLayout.FewestClusters` | src/fat16.c:806-808 | a file takes as few clusters as hold it, and at least one |
| `FatLayout.EndMarks` | src/fat16.c:762-768 | following a chain ends at 0, at 1 and from 0xFFF8 on, and nowhere else |
| `FatLayout.NeedsLongMeaning` | src/fat16.c:172-198 | which names need long-name slots, byte by byte |
| `FatShortNames.SpelledMatches` | src/fat16.c:546-566 | the fields of a stored 8.3 name answer to it exactly when it does not end in a dot |
| `FatShortNames.NewShortAnswers` | src/fat16.c:572-640 | the names a new 8.3 entry answers to: what its fields spell, and the long name collected in front of its slot |
| `FatShortNames.ShortIsFound` | src/fat16.c:572-640 | where a lookup of any name that nobody answered to ends once the 8.3 entry is stored |
| `FatShortNames.ShortWriteThenReadAny` | src/fat16.c:744-914 | after a successful write under an 8.3 name every other name, deleted ones included, reads the new data if and only if the new entry answers to it, and fails otherwise |
| `FatShortNames.ShortWriteThenRead` | src/fat16.c:744-914 | when no other live entry answers to an 8.3 name, a successful write makes a read return exactly the data if and only if the name does not start with 0xE5 and does not end in a dot, or a matching long-name run was left in front of its slot |
| `FatShortNames.TrailingDotExample` | src/fat16.c:141-160 | a name ending in a dot that is stored in 8.3 form: "A." |
| `FatDisk.SetEntry` | src/fat16.c:87-99 | writing an entry changes that entry of the table, keeps the copy equal, and touches neither directory nor data |
| `FatDisk.SetSlot` | src/fat16.c:329-354 | writing a directory slot changes that slot only |
| `FatDisk.SetData` | src/fat16.c:832-838 | writing a data sector changes that sector only |
| `FatDriver.Volume.ReadEntry` | src/fat16.c:79-85 | the table entry |
| `FatDriver.Volume.WriteEntry` | src/fat16.c:87-99 | the entry set in the table, both copies equal if they were |
| `FatDriver.Volume.AllocCluster` | src/fat16.c:101-109 | takes the first free cluster, 0 when the volume is full |
| `FatDriver.Volume.FreeChain` | src/fat16.c:111-118 | the table after releasing the chain; terminates on every in-range table |
| `FatDriver.Volume.AllocChain` | src/fat16.c:806-822 | a chain of n clusters, or everything given back |
| `FatDriver.Volume.StoreFile` | src/fat16.c:824-841 | the data area with the file stored along its chain |
| `FatDriver.Volume.LoadFile` | src/fat16.c:761-779 | the wanted bytes, or as many as the chain holds |
| `FatDriver.Volume.FindEntry` | src/fat16.c:572-640 | the first entry answering to the name |
| `FatDriver.Volume.FindFreeSlots` | src/fat16.c:276-301 | the first run of free slots that is long enough |
| `FatDriver.Volume.WriteDirEntries` | src/fat16.c:329-354 | the directory with the slots placed, across sector boundaries |
| `FatDriver.Volume.EraseSlot` | src/fat16.c:798-802 | the directory with the slot marked deleted |
| `FatDriver.Volume.PickShort` | src/fat16.c:848-866 | the first generated short name whose lookup fails, or the 99th |
| `FatDriver.Volume.Write` | src/fat16.c:782-914 | the volume and result of fat16_write_file for a root file; copies of the table stay equal |
| `FatDriver.Volume.Read` | src/fat16.c:744-780 | the bytes or the failure of fat16_read_file |
| `FatDriver.Volume.Delete` | src/fat16.c:916-941 | the volume and result of fat16_delete_file |
| `NtfsFixup.ApplyFixup` | src/ntfs.c:226-240 | in place: the record and verdict of the fixup specification |
| `NtfsFixup.PrepareFixup` | src/ntfs.c:242-258 | in place: the prepared record |
| `NtfsFixup.FixupRoundTrip` | src/ntfs.c:226-258 | applying a prepared record succeeds and restores every byte outside the update-sequence array |
| `NtfsFixup.ApplyOk` | src/ntfs.c:226-240 | applying succeeds exactly when every covered sector ends in the sequence number |
| `NtfsFixup.PreparedTail` | src/ntfs.c:242-258 | every covered sector of a prepared record ends in the new sequence number |
| `NtfsFixup.TornWriteIsRejected` | src/ntfs.c:226-258 | a mix of sectors of two consecutive prepared versions is accepted if and only if all sectors come from the same version |
| `NtfsRuns.ParseDataRuns` | src/ntfs.c:308-334 | the runs and the cluster total of the run-list specification |
| `NtfsRuns.ListParses` | src/ntfs.c:308-334 | a delta-encoded run list of at most 256 runs parses to its absolute clusters, with virtual clusters the sums of the lengths |
| `NtfsRuns.RunsOfAt` | src/ntfs.c:328-331 | the k-th run in closed form |
| `NtfsRuns.SevenByteListOk` | src/ntfs.c:319-329 | with distances of at most 7 bytes no list can overflow |
| `NtfsRuns.EncodeDataRun` | src/ntfs.c:607-619 | the encoding with the shortest widths, one byte more when the top bit is set |
| `NtfsRuns.OffsetFits` | src/ntfs.c:609-613 | the width chosen for a cluster below 2^63 holds it as a signed number |
| `NtfsRuns.EncodedRunParses` | src/ntfs.c:607-619 | parsing the encoding of a run gives it back for every length and every cluster below 2^63 |
| `NtfsIndex.WalkInserted` | src/ntfs.c:416-426 | after an insertion the walk gives the old entries followed by the new one |
| `NtfsIndex.EntriesInserted` | src/ntfs.c:747-783 | the entries are well formed again, the end mark moved back by the entry |
| `NtfsIndex.FindMoved` | src/ntfs.c:284-295 | looking any attribute up finds what it found before, at its new place |
| `NtfsIndex.OtherAttribute` | src/ntfs.c:284-295 | every attribute other than the index root keeps its bytes |
| `NtfsIndexEdit.InsertTheorem` | src/ntfs.c:747-783 | insertion succeeds exactly when there is room; then used, attribute, value, total and allocated entry sizes grow by the entry, the record is well formed, the walk shows the new entry last and every other attribute is found with identical bytes |
| `NtfsRemove.RemoveTheorem` | src/ntfs.c:785-820 | removal succeeds exactly when the walk shows the name; then all five sizes shrink by the entry, the record is well formed again, the walk is the old one without the first entry of that name and every other attribute is found with identical bytes |
| `NtfsRemove.ScanSeesWalk` | src/ntfs.c:796-808 | the name scan finds an entry if and only if the walk shows one of that name |
| `NtfsRemove.EntriesBefore` | src/ntfs.c:796-820 | moving the rest down over the entry found leaves a well-formed list that shows all the others in order |
| `NtfsRemove.AttrsBefore` | src/ntfs.c:809-820 | the attributes stay well formed and the index root stays where it was when everything behind the entry moves up |
| `NtfsEntry.BuildIndexEntry` | src/ntfs.c:729-745 | in the front of the buffer: the entry with all its fields, characters and padding, nothing behind it changed |
| `NtfsEntry.BuiltFields` | src/ntfs.c:729-745 | lengths, flags, name length, type, attributes and characters read back from a built entry |
| `NtfsEntry.BuiltIsNew` | src/ntfs.c:729-745 | a built entry has the shape an insertion needs |
| `NtfsEntry.BuiltName` | src/ntfs.c:377-382 | the name read back is the one stored, bytes that are not ASCII as question marks |
| `NtfsEntry.BuiltAnswers` | src/ntfs.c:377-391 | a built entry answers to m if and only if m is that name up to case; to its own name if and only if it is ASCII |
| `NtfsEntry.SameNameMeaning` | src/ntfs.c:383-391 | names are equal up to the case of A to Z |
| `NtfsEntry.InsertThenRemove` | src/ntfs.c:729-820 | inserting the entry built for an ASCII name nobody has and removing that name succeeds and restores the record but for cleared slack |
| `NtfsEntry.BuiltTarget` | src/ntfs.c:456-467 | a lookup gives the record number and the kind the entry was built for |
| `NtfsEntry.LookUpInserted` | src/ntfs.c:456-467 | after the entry is added, a name equal to it up to case that had no entry leads to its record, every other name where it did |
| `NtfsEntry.FindEntry` | src/ntfs.c:416-428 | the walk with the lookup callback finds the first matching entry of another than the DOS name space |
| `NtfsEntry.WalkIsWhole` | src/ntfs.c:416-428 | in a well-formed directory every entry of the walk holds its file name |
| `NtfsLayout.RecordHeader` | src/ntfs.c:54-69 | where the header fields of a record are, byte by byte |
| `NtfsLayout.RootFields` | src/ntfs.c:115-125 | where the fields of the index root are |
| `NtfsLayout.AttributeTypes` | src/ntfs.c:284-295 | the index root is the attribute of type 0x90; a lookup takes the first attribute of its type and ends at type 0xFFFFFFFF |
| `NtfsLayout.EntryFields` | src/ntfs.c:139-144 | where the fields of an index entry are |
| `NtfsLayout.NextSequence` | src/ntfs.c:242-258 | the next sequence number is one more, and 1 after 0xFFFF |
| `NtfsLayout.RunExample` | src/ntfs.c:308-340 | a run list of eight bytes: 24 clusters from 0x5634, 16 from 0x5624 |
| `NtfsLayout.RunLimit` | src/ntfs.c:308-340 | no more than 256 runs are taken, and as many as that are |
| `NtfsIndexEdit.RemoveUndoesInsert` | src/ntfs.c:785-820 | removing the inserted name, when no earlier entry has it, restores the record, except that the slack it used is cleared |
| `NtfsIndexEdit.ScanInserted` | src/ntfs.c:796-808 | the name scan ends at the new entry when no old entry has the name |
| `NtfsDriver.FindAttr` | src/ntfs.c:284-295 | the attribute lookup |
| `NtfsDriver.InsertIndexEntry` | src/ntfs.c:747-783 | in place: the record and verdict of the insertion, with everything the insertion theorem says |
| `NtfsDriver.RemoveIndexEntry` | src/ntfs.c:785-820 | in place: the record and verdict of the removal |
| `NtfsRecord.Reload` | src/ntfs.c:226-278 | a record that is written is accepted by the next read, with the same bytes outside the update-sequence array |
| `NtfsRecord.AcceptedMagic` | src/ntfs.c:260-268 | a record is accepted only if it starts with FILE |
| `NtfsRecord.SameDirectory` | src/ntfs.c:284-295 | a directory that is the same outside the update-sequence array is as well formed and shows the same entries |
| `NtfsRecord.InsertOnDisk` | src/ntfs.c:747-783 | read, insert, write: the disk changes only on success, exactly when the record is accepted and has room; then the next read finds the old entries followed by the new one and every other attribute as it was |
| `NtfsRecord.RemoveOnDisk` | src/ntfs.c:785-820 | read, remove, write: the disk changes only on success, exactly when the record is accepted and the walk shows the name; then the next read finds the old entries without the first of that name and every other attribute as it was |
| `Pmm.TestSet` | src/pmm.c:11-13 | setting a bit of a word sets that bit and no other |
| `Pmm.TestClear` | src/pmm.c:11-13 | clearing a bit clears that bit and no other |
| `Pmm.TestBitMeaning` | src/pmm.c:11-13 | bit i of a word is its digit of weight 2^i |
| `Pmm.CountUpdate` | src/pmm.c:36-67 | the number of set bits changes by exactly the bit changed |
| `Pmm.FrameAllocator.constructor` | src/pmm.c:15-34 | exactly the frames below the kernel's end are in use, and the count agrees |
| `Pmm.FrameAllocator.Alloc` | src/pmm.c:36-47 | takes the first free frame; 0 when there is none; the count equals the set bits below the total |
| `Pmm.FrameAllocator.Free` | src/pmm.c:49-55 | frees a frame in use, ignores others; the count agrees |
| `Pmm.FrameAllocator.Reserve` | src/pmm.c:57-67 | the frames of the range, its end computed in 32 bits, are in use, others as before; the count agrees |
| `Pmm.ReserveMeaning` | src/pmm.c:57-67 | for all 32-bit arguments: while the rounded end stays below 2^32, exactly the frames the range touches (and the start page of an empty unaligned range); beyond it, nothing but possibly the start page, with the exact condition |
| `Pmm.FrameAllocator.FreePages` | src/pmm.c:69 | the number of frames not in use |
| `PagingSpace.WithTableEffect` | src/paging.c:283-300 | either no table changes place, or one new, empty table appears |
| `PagingSpace.MapUserKeeps` | src/paging.c:259-337 | mapping keeps what a space owns: its directory and tables, pairwise distinct, exactly accounted for in the bitmap |
| `PagingRights.UserEntryBits` | src/paging.c:315-323 | which bits the entry of a mapped page has: those of the flags, PRESENT, USER, and write-through in the graphics window |
| `PagingRights.UserEntryExample` | src/paging.c:315-323 | frame 100 at 0xC0000000 with flags 7 gives 0x64007 |
| `PagingRights.WithUserIsOr` | src/paging.c:299 | opening an entry sets the user bit and no other |
| `PagingRights.MapUserDirectory` | src/paging.c:285-300 | the directory entry used is open to user code, or new and writable; all others are unchanged |
| `PagingRights.WalkIsLeaf` | src/paging.c:383-397 | a lookup gives the frame of the entry found, if that is present |
| `PagingRights.MapUserLeaves` | src/paging.c:305-323 | the page table entry of the mapped page is the one written, all others are unchanged |
| `PagingRights.MappedPageRights` | src/paging.c:259-337 | user code may go to a mapped page, and it may be written exactly when the flags say so and the directory entry, if there was one, allows it |
| `PagingRights.OtherPageRights` | src/paging.c:285-300 | every other page may be written as before; under the same directory entry its own entry now decides whether user code may go there |
| `PagingRights.WindowsEndCleared` | src/paging.c:328-329 | the windows at 0x3FE00000 and 0x3FE01000 end up cleared |
| `PagingSpace.MapUserWalks` | src/paging.c:259-337 | the mapped page leads to its frame and every other page leads where it did |
| `PagingSpace.MapUserKeepsData` | src/paging.c:259-337 | frames holding data keep their bytes |
| `PagingSpace.WithDataKeeps` | src/pmm.c:36-47 | taking a frame disturbs no lookup and no owned frame |
| `PagingSpace.DestroyRestores` | src/paging.c:338-357 | destroying a space leaves in use what was in use before it and the data frames it was given |
| `PagingSpace.SpaceLifecycle` | src/paging.c:259-357 | creating a space, any successful mappings and destroying it restore the bitmap exactly |
| `PagingSpace.IsolatedSpace` | src/paging.c:170-188 | a new isolated space owns its directory only and has no table between 256 and 767 |
| `PagingIsolation.MapKeepsIsolated` | src/paging.c:259-337 | mapping keeps the shape of an isolated space |
| `PagingIsolation.SpaceIsElder` | src/paging.c:170-188 | every space is older than all that are created from then on |
| `PagingIsolation.ElderAfterCreate` | src/paging.c:170-188 | creating a space leaves older ones alone |
| `PagingIsolation.ElderAfterMap` | src/paging.c:259-337 | mapping into a space leaves the directories of older ones alone |
| `PagingIsolation.OldFrameKept` | src/paging.c:259-337 | mapping changes no frame that was in use before the space, except kernel tables |
| `PagingIsolation.ElderIsStranger` | src/paging.c:170-188 | an older space shares no own table with a younger one |
| `PagingIsolation.YoungerIsStranger` | src/paging.c:170-188 | nor a younger one with an older |
| `PagingIsolation.StrangerSees` | src/paging.c:259-337 | another space, older or younger, sees a new mapping exactly when both use the kernel's table there, and nothing else changes for it |
| `PagingIsolation.IsolationIsExact` | src/paging.c:170-188 | between isolated spaces a mapping is private if and only if its directory index is 256 to 767 |
| `PagingIsolation.IsolatedSpacesAgree` | src/paging.c:170-188 | any two isolated spaces look every page outside that range up alike |
| `PagingIsolation.SharedPageMaps` | src/paging.c:283-300 | mapping outside that range never needs a frame for a table |
| `PagingIsolation.FrameZeroBecomesTable` | src/paging.c:285-300 | a table is missing and no frame is left, exactly then frame 0 is cleared, linked and used as the table |
| `PagingImpl.Memory.MapUserPage` | src/paging.c:259-337 | memory and bitmap after paging_map_user, in every case |
| `PagingImpl.Memory.CreateIsolatedSpace` | src/paging.c:170-188 | a new isolated space, or 0 and nothing changed |
| `PagingImpl.Memory.CreateClonedSpace` | src/paging.c:128-168 | a space whose lookups agree with the kernel's, open to user code on every page the kernel has and writable where the kernel's tables say so, owning one table per index; or 0 and the bitmap exactly as before |
| `PagingImpl.Memory.DestroySpace` | src/paging.c:338-357 | the bitmap without the space's directory and tables |
| `PagingImpl.CloneDone` | src/paging.c:128-168 | a finished clone is a space, looks every page up as the kernel does, and is open to user code |
| `PagingImpl.CloneUndone` | src/paging.c:145-153 | giving back the partial clone restores the bitmap |
| `Elf.LoadSucceeds` | src/elf.c:123-200 | a load succeeds if and only if every header that asks for memory passes the checks and there is a free frame for the directory and for every page |
| `Elf.ElfImage` | src/elf.c:82-200 | after a load of page-disjoint segments every address of a segment shows the file's byte below filesz and zero from there to memsz; the stack shows zeros |
| `Elf.LoadPageKeeps` | src/elf.c:90-119 | loading a page succeeds exactly when a frame is free, takes that one frame and keeps every page already loaded |
| `Elf.LoadSegmentKeeps` | src/elf.c:82-121 | loading n pages succeeds exactly when n frames are free; otherwise all free frames have been taken |
| `Elf.LoadSegmentsKeeps` | src/elf.c:146-179 | the header loop succeeds exactly when all checks pass and all pages have frames; otherwise the pages before the offending header, or all frames, have been taken |
| `Elf.LaterFrameKeepsImage` | src/pmm.c:36-47 | taking any further frame disturbs no page of the image |
| `Elf.MapKeepsImage` | src/paging.c:259-337 | mapping a further page, with or without a new table, keeps every other page of the image |
| `Elf.LoadedImage` | src/elf.c:146-200 | the loaded space shows every page of the program |
| `ElfSharing.LoadedPagesAreShared` | src/elf.c:156-161 | a page of a loadable segment appears in every other isolated space |
| `ElfSharing.SecondLoad` | src/elf.c:123-200 | a later load leaves every frame in use alone, but for kernel tables, and pages that are not its own lead where they did |
| `ElfSharing.SecondProgramShowsThrough` | src/elf.c:123-200 | after loading program 1 and then program 2, each address of a page of program 1 shows program 2's byte if the page is one of program 2's, and program 1's byte otherwise; both look the page up alike |
| `ElfSharing.StackIsShared` | src/elf.c:181-201 | after the second load both programs have the same stack frames, not those of the first load |
| `Elf.FailedLoadKeepsFrames` | src/elf.c:140-193 | a failed load leaves in use what was in use and one frame for every page loaded until then, whose number is given; the bitmap is restored if and only if it is 0 |
| `Elf.WindowKeepsImage` | src/elf.c:194-197 | clearing a stack page through the loader's window disturbs no page of the image |
| `Elf.LoaderPageUnmapped` | src/elf.c:184-197 | every load ends with the loader's window at 0x3FD00000 cleared in the kernel table all spaces share |
| `Elf.AcceptedMeaning` | src/elf.c:150-168 | which headers pass: empty ones, and those at 0xC0000000 or above whose bytes lie in the file |
| `Elf.CoveredPages` | src/elf.c:82-91 | a page is loaded for a segment exactly when it has a byte of the segment on it |
| `ElfRights.LoadedRights` | src/elf.c:82-200 | after a load user code may go to every page of the program and its stack; the entry of a page is writable if and only if the last segment on it asks for PF_W, and the page if the kernel's directory entry allows it too |
| `ElfRights.StackRights` | src/elf.c:179-200 | the stack is the four pages below 0xE0000000, open to user code, with writable entries |
| `PagingImpl.Memory.MapPage` | src/elf.c:90-119 | memory and bitmap after one page of either page loop; false exactly when no frame is left |
| `PagingImpl.Memory.MapSegment` | src/elf.c:82-121 | memory and bitmap after map_segment; false exactly when a frame is missing |
| `PagingImpl.Memory.LoadProgram` | src/elf.c:139-200 | memory and bitmap after the loading part of elf_load, header checks included; on failure the space is destroyed |
| `PagingImpl.FillPage` | src/elf.c:97-115 | the cleared and copied frame holds exactly the bytes the header describes |

## Left out

- DEFLATE streams with over-subscribed codes, with distances before the start of the output while it has room, or with a block that never ends in the zeros behind the input: the decoder's contract says nothing about them (the C code overwrites tree slots, reads before the buffer, or does not return).
- `InflateTheorem.DecompressParsed`: the same two cases, over-subscribed codes and endless blocks, are excluded from the bytes behind the first cut.
- zlib and gzip headers, PNG chunks, interlacing, palettes and pixel conversion (`src/image.c:393-407`, `src/image.c:419-524`, `src/image.c:543-581`): easy members; BMP and TGA likewise.
- `HuffmanTree.Tree`, `Inflate.Decoder`: the function-static trees of the C code are objects passed or created where needed; local arrays of code lengths are sequences.
- `HuffmanTree.Tree.Insert`, `HuffmanTree.Tree.Build`: over-subscribed code lengths, for which the C code overwrites a leaf or an inner node.
- `Inflate.CopyMatch`: while the output has room, distances that reach before it, for which the C code reads the bytes in front of the buffer.
- `BitReader.Reader.Read`: reads of more than 25 bits, which no caller makes, are not covered.
- IPC: message pointers that are NULL, the `total_messages` and per-process tick counters, the service registry, PID wrap-around after 2^32 creations and wrap-around of the 32-bit tick counter. Statements about calls and blocking exempt PID 0, to which the scheduler falls back even when it is blocked (`src/task.c:303-309`).
- `KernelImpl.System.TaskCreate`: whether the stacks and the address space can be allocated is a parameter; stacks, registers, CR3 and the scheduler lock are abstracted away.
- `IpcProtocol.RequestReplyTheorem`: assumes the discipline of `include/server.h:14-22` (a server replies before it receives again, clients use sendrec only), which the server loops keep exactly when `Servers.LoopsAreDisciplined` says; without it the statement is false, see `IpcProtocol.RequestIsNotConsumed` and `IpcProtocol.AnyoneCanReply`. Liveness after a peer is killed is not modelled.
- `Heap.KernelHeap.Free`: a pointer that is not NULL must be a live payload or fail the magic test; `kcalloc` and `heap_dump` are left out.
- FAT16 paths, subdirectories, `fat16_mkdir`, `fat16_list_dir`, mounting, formatting and disk errors. Names are those of the root directory; the chains of files in subdirectories take part in the invariant as owners that never change.
- `FatDriver.Volume.Write`: file sizes below 2^31 and names that fit the 128-byte buffers; a volume whose cluster numbers stay below 0xFFF8 and whose table links stay inside it.
- `FatDriver.Volume.FindEntry`: comparing two names and cutting a buffer at its terminator are expressions, not loops.
- `FatReadWrite.WriteThenRead`: for long names without the byte 0xFF, which the collection cannot give back (`FatNames.ExactlyPlainNamesSurvive`).
- `NtfsEntry.BuildIndexEntry`: names of at most 255 bytes, the length the entry can store; sizes and references are cut to their fields.
- `NtfsFixup.FixupRoundTrip`: for records whose update-sequence array lies behind its own header fields and before the last word of the first sector, as in every record the driver builds.
- `NtfsRuns.ParseDataRuns`: lengths or offsets of more than 8 bytes, negative 8-byte offsets and sums beyond 64 bits make the C code shift by 64 or overflow; they are `Undefined`. Sparse runs are parsed but not part of the list theorem. OR of disjoint bytes is written as addition.
- `NtfsDriver.InsertIndexEntry`, `NtfsDriver.RemoveIndexEntry`: work on a record already read; `NtfsRecord.InsertOnDisk` and `NtfsRecord.RemoveOnDisk` add the reading and writing, without disk errors and the search for the record's sectors. The record must be well formed as the driver builds it; INDX nodes, cluster and MFT bitmaps and the 64-bit division helpers are left out.
- `PagingImpl.Memory.MapUserPage`: the temporary windows are modelled by their net effect, and TLB, CR3 and the identity mapping by direct access to frames. `paging_init` is an assumption (`Paging.KernelOk`): every kernel directory entry points to its static table, and kernel frames are reserved.
- `Elf.LoadElf`: program headers whose sums wrap around 2^32 are not covered; `elf_validate`, headers that are not PT_LOAD, the VGA mapping, the kernel stack and process creation are left out.
- Device drivers, the graphical interface, the shell and programs, networking, RAM file system and procfs: hardware, user interface or small tables.
