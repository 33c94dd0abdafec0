# A Dafny model of BRUTAL

BRUTAL is an operating system: a capability micro-kernel for x86_64 and the libraries its processes are built from.
This project models six of its cores and proves what they promise, over every input and every run.

| core | modules |
|---|---|
| Heap allocator: a chain of page-sized major blocks, each with an address-sorted list of minor blocks | `HeapLayout`, `HeapAllocator`, `HeapClients` |
| Four-level page tables as a refinement of a flat page map (Intel SDM volume 3A, section 4.5) | `PageTree`, `PageTables`, `PageRanges`, `PageSpaces` |
| DEFLATE and gzip (RFC 1951, RFC 1952): bit streams, canonical Huffman codes, window, blocks, CRC | `Bits`, `BitReader`, `Huffman`, `HuffTrees`, `FixedCodes`, `DeflateFormat`, `Window`, `Inflate`, `DynamicHeader`, `InflateStream`, `InflateBlocks`, `Deflate`, `Words`, `Crc32`, `CrcLaws`, `Gzip` |
| Capability kernel: reference counts, handle tables, parcels, channels, blocking calls, and the packing of values for calls between processes | `Containers`, `Capabilities`, `Kernel`, `ChannelRuns`, `KernelRuns`, `BlockingIpc`, `IpcFormat`, `IpcBuffers`, `IpcCalls` |
| SMP scheduler | `SchedState`, `Scheduler`, `SchedRuns` |
| Reader/writer lock and physical page allocator | `RwLock`, `Bitmap`, `PageFrames` |

Code that works in place is modelled by classes with the same fields, whose methods follow the branches and loops of the
C code and are proved against pure descriptions of the state; the lemmas beside them are about those descriptions. The
reader/writer lock is a step system with one program counter per thread, and a blocking call is a step system in which
anything may happen between two polls. `Basics` holds what several modules share. `dafny verify dfyconfig.toml` checks
the whole project.

How the main abstractions are built:

- **Heap.** Headers live in maps keyed by address, `usage`, `first`, `prev`, `next` and `best` are updated field by field,
  and `mem` holds the bytes of the address space. Writing a header stamps its bytes, so a header written over a payload,
  or a payload over a header, would break a proof. `HeapClients` then forgets all of it: a heap is a map from pointers to
  the bytes stored there.
- **Page tables.** `Places` says which page sits at which position of which space. The invariant `Forest` makes it
  injective, so tables form trees that share nothing but what hangs below the kernel's PML4 entries. The kernel heap is a
  pool of frames, and tables plus pool are conserved.
- **DEFLATE.** A stream is described by what it encodes: blocks of tokens, the codes they are written in, and the
  resulting bit string. The decoder is proved to return the meaning of every bit string so described, and to refuse one
  exactly when a check of the code fails.
- **Capabilities.** `Holders` collects every reference: handles, queued parcels, fields of objects and the references
  running code holds. The invariant says that each counter equals the number of its holders. A channel is the ring of
  `Containers`, as a value; the class `Ring` is the same ring over an array. A run of the kernel leaves a log of states
  and of what happened between them, and `ChannelRuns` proves what holds of every such log.

What the proofs found out about the code:

- `vmm_map` ignores failures of `vmm_map_page`, so pages can be left unmapped while success is reported. `PageRanges.Map`
  says exactly when that does not happen.
- `vmm_virt2phys` does not look at the present bit of the leaf entry and drops the offset inside the page
  (`PageRanges.LookUpUnmapped`).
- `channel_destroy` drops queued parcels without giving their references back. The invariant counts these references as
  `leaked`; equality holds with them.
- `vmm_unmap` of a range that vmm_map could only map in part goes through: pages without tables are skipped by both.
- A read attempt on the reader/writer lock that starts while a writer is pending may succeed; one that takes the inner
  lock while a writer is pending may not (`RwLock.EarlyAttemptMaySucceed`, `RwLock.WritersFirst`, `RwLock.AttemptDecided`).
- A gzip member of 2^32 bytes or more is written but never accepted again, because the stored length is compared with the
  full size (`Gzip.RoundTrip`).


## Model

| member | source | states |
|---|---|---|
| `HeapClients.Run` | sources/libs/brutal-alloc/heap.c:72-400 | over any run of acquire, release, resize and stores on a fresh heap: a heap and a view (pointers with the bytes stored behind them) between any two calls, each pair connected by what its call does, every view read back from its heap, and blocks with their headers never overlap at the end; a fresh pointer has room for what was asked, and offers count in addresses |
| `HeapClients.StoredReadsBack` | sources/libs/brutal-alloc/heap.c:72-400 | over any run a byte once stored within the requested size is in memory until its client overwrites it, or releases or resizes the block, whatever else is called |
| `HeapClients.ResizeCarries` | sources/libs/brutal-alloc/heap.c:367-400 | a resize leaves a block with room for the new size and every stored byte below it, wherever the block went |
| `HeapClients.Perform` | sources/libs/brutal-alloc/heap.c:72-400 | one call refines one step of a map from pointers to stored bytes: acquire, and resize of null, add a fresh pointer; release, and resize to 0, remove one; any other resize keeps the bytes below the new size under the new pointer; every new pointer has room for the size asked for |
| `HeapAllocator.HeapAlloc.Acquire` | sources/libs/brutal-alloc/heap.c:72-292 | terminates; returns a new live block of the aligned size, keeps shape and usage invariants and all other payloads, and asks the system for a major block exactly when no gap of any existing block fits |
| `HeapAllocator.HeapAlloc.Search` | sources/libs/brutal-alloc/heap.c:112-291 | the walk over the major blocks with its single restart from the best bet: places the block, or proves that no gap fits before it grows the chain |
| `HeapAllocator.HeapAlloc.ScanFrom` | sources/libs/brutal-alloc/heap.c:198-259 | CASE 4: takes the first gap behind a minor that fits, or shows that no gap of the block fits and changes nothing |
| `HeapAllocator.HeapAlloc.Scan` | sources/libs/brutal-alloc/heap.c:157-259 | CASE 2 to CASE 4 on one block: a placement in a gap that fits, or the state unchanged and no gap |
| `HeapAllocator.HeapAlloc.PlaceAlone` | sources/libs/brutal-alloc/heap.c:157-173 | CASE 2: the first minor of an empty block, as a splice into its gap |
| `HeapAllocator.HeapAlloc.PlaceFront` | sources/libs/brutal-alloc/heap.c:175-196 | CASE 3: the pointer updates are a splice before the first minor |
| `HeapAllocator.HeapAlloc.PlaceBack` | sources/libs/brutal-alloc/heap.c:204-228 | CASE 4.1: the pointer updates are a splice behind the last minor |
| `HeapAllocator.HeapAlloc.PlaceBetween` | sources/libs/brutal-alloc/heap.c:230-256 | CASE 4.2: the pointer updates are a splice between two minors |
| `HeapAllocator.HeapAlloc.Grow` | sources/libs/brutal-alloc/heap.c:10-43 | a fresh major block is linked at the end of the chain (or becomes the root) with only its header used |
| `HeapAllocator.HeapAlloc.GrowForRequest` | sources/libs/brutal-alloc/heap.c:261-287 | CASE 5: the appended block has a gap that fits the request, and the old heap had none |
| `HeapLayout.UsageBoundsGaps` | sources/libs/brutal-alloc/heap.c:124-155 | no gap of a block is larger than size minus `usage` |
| `HeapLayout.SkipIsSound` | sources/libs/brutal-alloc/heap.c:124-155 | the CASE 1 skip by `usage` never hides a gap that fits |
| `HeapLayout.GapIsFree` | sources/libs/brutal-alloc/heap.c:175-259 | a range inside a gap overlaps no live block of the whole heap, headers included |
| `HeapLayout.SpliceKeepsHeap` | sources/libs/brutal-alloc/heap.c:157-259 | linking a minor into a gap that fits keeps all chains, order, disjointness and usage sums |
| `HeapLayout.UnlinkKeepsHeap` | sources/libs/brutal-alloc/heap.c:294-365 | unlinking a minor keeps them |
| `HeapLayout.GrowKeepsHeap` | sources/libs/brutal-alloc/heap.c:10-43 | appending a major block apart from the others keeps them |
| `HeapLayout.DropKeepsHeap` | sources/libs/brutal-alloc/heap.c:294-365 | removing an empty major block from the chain keeps them |
| `HeapAllocator.PlacedIsSafe` | sources/libs/brutal-alloc/heap.c:157-259 | a placement in a gap keeps the heap consistent, every other block's size and bytes, and every header's bytes |
| `HeapAllocator.Finished` | sources/libs/brutal-alloc/heap.c:72-292 | a call that grew and one that did not both end in a valid heap with one more block, and it grew exactly if nothing fitted before |
| `HeapAllocator.BlocksDisjoint` | sources/libs/brutal-alloc/heap.c:72-292 | two live blocks never overlap, headers included |
| `HeapAllocator.HeapAlloc.Release` | sources/libs/brutal-alloc/heap.c:294-365 | accepts exactly null and live pointers; frees that block only, drops a block that became empty, and keeps everything else |
| `HeapAllocator.HeapAlloc.Move` | sources/libs/brutal-alloc/heap.c:395-399 | growing resize: the requested bytes arrive in the new block and nobody else is touched |
| `HeapAllocator.HeapAlloc.Resize` | sources/libs/brutal-alloc/heap.c:367-400 | size 0 frees, null acquires, a dead pointer is refused, otherwise the first min(old, new) bytes are preserved and all other blocks keep theirs |
| `HeapAllocator.HeapAlloc.constructor` | sources/libs/brutal-alloc/heap.c:402-414 | an empty heap is valid |
| `PageTree.PathIsPage` | sources/kernel/x86_64/paging.h:56-63 | the four indices identify the 48-bit page number and nothing else |
| `PageTree.PathIsBits` | sources/kernel/x86_64/paging.h:56-63 | the four indices are bits 47-39, 38-30, 29-21 and 20-12 of the address |
| `PageTree.RightsAreLeafs` | sources/kernel/x86_64/vmm.c:186-202 | no level above the leaf takes rights away: what a walk allows is what the leaf entry says |
| `PageTree.WalkIsPosition` | sources/kernel/x86_64/vmm.c:24-39 | walking the tables along a prefix finds exactly the table page recorded at that position |
| `PageTree.WalkIsShared` | sources/kernel/x86_64/vmm.c:123-145 | below a shared PML4 entry a space walks the kernel's own tables |
| `PageTree.AddTableKeepsForest` | sources/kernel/x86_64/vmm.c:41-64 | linking a fresh zeroed table page keeps the tables a forest without shared children |
| `PageTree.AddTableKeepsView` | sources/kernel/x86_64/vmm.c:41-64 | it changes no translation of any space |
| `PageTree.SetLeafView` | sources/kernel/x86_64/vmm.c:186-254 | writing one leaf entry changes the translation of that page in the spaces that reach it and of no other page |
| `PageTables.Vmm.GetPmlOrAlloc` | sources/kernel/x86_64/vmm.c:41-64 | finds or adds the next table; fails exactly when one is needed and the heap is empty; pages are conserved and no translation changes |
| `PageTables.Vmm.MapPage` | sources/kernel/x86_64/vmm.c:186-209 | maps an unmapped page in this space only, panics exactly on a mapped one, and runs out of memory only with the heap empty and a needed table missing; the page then translates to the present entry of its frame with these flags, and the rights collected along the walk are those of the flags |
| `PageTables.Vmm.UpdatePage` | sources/kernel/x86_64/vmm.c:211-234 | new flags, same frame, for a mapped page only; the error cases and what they leave alone; the rights along the walk are the new ones |
| `PageTables.Vmm.UnmapPage` | sources/kernel/x86_64/vmm.c:236-254 | removes exactly that page; bad address exactly if its leaf table is missing |
| `PageTables.Vmm.Virt2Phys` | sources/kernel/x86_64/vmm.c:311-330 | the frame of a mapped page, 0 for an unmapped page whose leaf table exists, an error exactly if that table is missing |
| `PageRanges.LookUpUnmapped` | sources/kernel/x86_64/vmm.c:311-330 | a page mapped and unmapped again is answered with 0 although it does not translate |
| `PageRanges.PagesDistinct` | sources/kernel/x86_64/vmm.c:272-309 | up to 2^36 consecutive pages have pairwise different index paths |
| `PageRanges.Map` | sources/kernel/x86_64/vmm.c:272-295 | every page of an unmapped range gets its own frame and nothing else changes, except pages silently skipped for want of tables; none is skipped if and only if the heap holds as many pages as the range misses tables; each mapped page can be used as the flags say, all four levels considered |
| `PageRanges.NeededBound` | sources/kernel/x86_64/vmm.c:272-295 | three table pages for each mapped page are always enough |
| `PageRanges.Unmap` | sources/kernel/x86_64/vmm.c:297-309 | clears exactly the pages of the range; goes through if and only if each page has no leaf table, or is mapped and no repetition; otherwise the pages before the first offender are cleared |
| `PageRanges.UpdateFlags` | sources/kernel/x86_64/vmm.c:256-270 | changes the flags of the mapped pages of the range, keeps their frames and all other pages, and the rights along the walk of each are the new ones |
| `PageRanges.MapThenUnmap` | sources/kernel/x86_64/vmm.c:272-309 | running vmm_map on an unmapped range and then vmm_unmap: both go through and every space translates every page as before, however little memory there was for tables |
| `PageSpaces.SpaceCreate` | sources/kernel/x86_64/vmm.c:123-145 | a new space translates nothing in its own half and everything the kernel maps in the shared one; no other space changes |
| `PageSpaces.DestroyPml` | sources/kernel/x86_64/vmm.c:147-167 | frees each table page below the given entries, and the table itself, exactly once |
| `PageSpaces.SpaceDestroy` | sources/kernel/x86_64/vmm.c:169-172 | frees the root and all tables under entries 0 to 254 exactly once, no kernel table and no mapped frame, and keeps all other spaces |
| `PageSpaces.DestroyKeepsForest` | sources/kernel/x86_64/vmm.c:147-172 | removing a space's own pages leaves a forest in which every other space translates as before |
| `Huffman.FirstIsKraft` | sources/libs/codec-deflate/huff.h:14-82 | the code-assignment recurrence of section 3.2.2 of RFC 1951 ends at twice the Kraft sum |
| `Huffman.PrefixFree` | sources/libs/codec-deflate/huff.h:14-82 | in a complete code no symbol's code is a prefix of another's |
| `Huffman.CanonicalRules` | sources/libs/codec-deflate/huff.h:14-82 | codes of one length are consecutive numbers in the order of their symbols, and shorter codes come before longer ones (section 3.2.2 of RFC 1951) |
| `Huffman.EveryStringDecodes` | sources/libs/codec-deflate/huff.h:96-131 | in a complete code every string of 15 bits starts with a code |
| `Huffman.StopsAtCode` | sources/libs/codec-deflate/huff.h:96-131 | the counting test stops exactly on the canonical code of the symbol with that rank |
| `Huffman.SlotsDiffer` | sources/libs/codec-deflate/huff.h:64-71 | distinct coded symbols get distinct table slots |
| `HuffTrees.HuffTree.CountLengths` | sources/libs/codec-deflate/huff.h:21-38 | the count table holds the number of codes of each length, and the largest symbol is recorded |
| `HuffTrees.HuffTree.Offsets` | sources/libs/codec-deflate/huff.h:40-54 | the running availability equals the unused code space, and offsets are the prefix sums of the counts |
| `HuffTrees.HuffTree.Fill` | sources/libs/codec-deflate/huff.h:64-71 | every coded symbol is stored at its slot in canonical order |
| `HuffTrees.HuffTree.Build` | sources/libs/codec-deflate/huff.h:14-82 | accepts a length vector if and only if it is empty, complete, or a single code of one bit (then completed by a partner), and the tables then decode exactly that code |
| `HuffTrees.HuffTree.Next` | sources/libs/codec-deflate/huff.h:96-131 | returns the symbol whose canonical code comes next and consumes exactly its bits; the length and index assertions never fire |
| `HuffTrees.LonePatch` | sources/libs/codec-deflate/huff.h:73-79 | the patch for a single code yields tables of a complete two-symbol code |
| `FixedCodes.FixedComplete` | sources/libs/codec-deflate/inflate.c:148-196 | the fixed literal code of section 3.2.6 of RFC 1951 is complete |
| `FixedCodes.FixedSlot` | sources/libs/codec-deflate/inflate.c:148-196 | where the canonical order puts each fixed symbol |
| `FixedCodes.BuildStatic` | sources/libs/codec-deflate/inflate.c:148-196 | the hand-filled tables decode exactly the fixed codes |
| `BitReader.IoRBits.Ensure` | sources/libs/brutal-io/rbits.h:36-47 | refilling changes no unread bit and buffers fewer than 8 bits beyond the request, so 64 bits are enough |
| `BitReader.IoRBits.Pop` | sources/libs/brutal-io/rbits.h:62-87 | returns the next bits of the input in LSB-first order and removes exactly them |
| `BitReader.IoRBits.Take` | sources/libs/brutal-io/rbits.h:36-87 | after a complete ensure and pop fewer than 8 bits are buffered |
| `BitReader.IoRBits.Align` | sources/libs/brutal-io/rbits.h:92-96 | skips to the next byte boundary of the input; with fewer than 8 buffered bits no byte is lost |
| `Window.IoWindow.FlushChunk` | sources/libs/brutal-io/window.c:26-34 | flushed output followed by window contents is unchanged |
| `Window.IoWindow.FlushAll` | sources/libs/brutal-io/window.c:36-40 | everything ever written has been flushed |
| `Window.IoWindow.Write` | sources/libs/brutal-io/window.c:42-54 | appends to the whole history; writes up to the capacity are never cut |
| `Window.IoWindow.PeekFromBack` | sources/libs/brutal-io/window.c:64-68 | the byte at that distance in the whole history |
| `Window.IoWindow.InReach` | sources/libs/brutal-io/window.c:42-68 | any distance up to the capacity and the total output is still in the buffer |
| `DeflateFormat.CopyRepeats` | sources/libs/codec-deflate/inflate.c:262-267 | an overlapping copy repeats the last `distance` bytes, as section 3.2.3 of RFC 1951 asks |
| `DeflateFormat.CopyUnique` | sources/libs/codec-deflate/inflate.c:262-267 | and is the only continuation that does |
| `DeflateFormat.DistanceBounded` | sources/libs/codec-deflate/inflate.c:8-22 | every distance symbol below 30 gives a distance between 1 and 32768 |
| `DeflateFormat.LensExtra` | sources/libs/codec-deflate/inflate.c:8-14 | extra bits of the length symbols: none up to 264 and for 285, then one more every four symbols |
| `DeflateFormat.LensTile` | sources/libs/codec-deflate/inflate.c:8-14 | the ranges of the length symbols follow each other without gap or overlap from 3 to 258, and 285 is 258 itself |
| `DeflateFormat.EveryLength` | sources/libs/codec-deflate/inflate.c:8-14 | every length from 3 to 258 is the value of some symbol and extra bits |
| `DeflateFormat.LengthRange` | sources/libs/codec-deflate/inflate.c:8-14 | ranges of two length symbols below 285 do not overlap |
| `DeflateFormat.DistExtra` | sources/libs/codec-deflate/inflate.c:19-22 | extra bits of the distance symbols: none for 0 and 1, then one more every two symbols |
| `DeflateFormat.DistTile` | sources/libs/codec-deflate/inflate.c:15-22 | the ranges of the distance symbols follow each other without gap or overlap from 1 to 32768 |
| `DeflateFormat.EveryDistance` | sources/libs/codec-deflate/inflate.c:15-22 | every distance from 1 to 32768 is the value of some symbol and extra bits |
| `DeflateFormat.DistanceRange` | sources/libs/codec-deflate/inflate.c:15-22 | ranges of two distance symbols do not overlap |
| `Inflate.CopyMatch` | sources/libs/codec-deflate/inflate.c:262-267 | the byte loop through the flushing window is the copy of the unbounded history |
| `Inflate.Inflater.Match` | sources/libs/codec-deflate/inflate.c:246-268 | length and distance are decoded and copied; refused at once, and exactly, if the length symbol does not exist or was not declared, or there are no distance codes |
| `Inflate.Inflater.Body` | sources/libs/codec-deflate/inflate.c:230-269 | decodes any token sequence to its expansion, and refuses exactly those with a length symbol that the check refuses |
| `DynamicHeader.ReadPrecode` | sources/libs/codec-deflate/inflate.c:77-88 | the code-length code lengths arrive in their permuted order |
| `DynamicHeader.OrderOutwards` | sources/libs/codec-deflate/inflate.c:53-55 | the storage order: the three run symbols, 0, and then the lengths from 8 and 7 outwards |
| `DynamicHeader.RunLengths` | sources/libs/codec-deflate/inflate.c:99-124 | what the run symbols stand for: the previous length 3 to 6 times, 3 to 10 zeros, 11 to 138 zeros |
| `DynamicHeader.ReadOp` | sources/libs/codec-deflate/inflate.c:96-124 | literal lengths, repeats and zero runs decode to their value and count |
| `DynamicHeader.ReadLengths` | sources/libs/codec-deflate/inflate.c:94-135 | run-length decoding fills exactly the announced lengths; an overrun is the only refusal |
| `InflateStream.BuildDynamic` | sources/libs/codec-deflate/inflate.c:48-146 | accepts a dynamic header if and only if all three codes and the end-of-block code are acceptable, and then both trees decode the transmitted codes |
| `InflateStream.CopyN` | sources/libs/brutal-io/funcs.c:171-197 | copies exactly n bytes in pieces through the window |
| `Bits.BytesOfBits` | sources/libs/brutal-io/rbits.h:92-96 | a bit string that begins with whole bytes begins with those bytes |
| `Bits.LeBits` | sources/libs/codec-gzip/gzip.c:122-138 | the bytes of a word hold its bits in stream order, the least significant first |
| `Bits.LeWraps` | sources/libs/codec-gzip/gzip.c:135-143 | reading back a word of k bytes gives the number modulo 256^k |
| `InflateBlocks.StoredBlock` | sources/libs/codec-deflate/inflate.c:208-218 | aligns, reads the two length words and copies that many bytes |
| `InflateBlocks.FixedBlock` | sources/libs/codec-deflate/inflate.c:148-277 | a block in the fixed codes decodes to the meaning of its tokens; refused exactly if it uses symbol 286 or 287 |
| `InflateBlocks.DynamicBlock` | sources/libs/codec-deflate/inflate.c:48-277 | a block with its own codes decodes to the meaning of its tokens |
| `InflateBlocks.DecodeBlock` | sources/libs/codec-deflate/inflate.c:198-277 | any well-formed block extends the output by its meaning and leaves the rest of the input; refused exactly if a check fails, and then nothing is asked of the bits that follow |
| `InflateBlocks.Decompress` | sources/libs/codec-deflate/inflate.c:279-301 | any well-formed stream of stored, fixed and dynamic blocks decompresses to its meaning, the size is the number of bytes, and the bytes after it are left unread |
| `Deflate.IoWBits.AddBits` | sources/libs/brutal-io/wbits.h:29-33 | appends the bits LSB first |
| `Deflate.IoWBits.Flush` | sources/libs/brutal-io/wbits.h:38-47 | moves whole bytes out and changes no written bit |
| `Deflate.IoWBits.Align` | sources/libs/brutal-io/wbits.h:52-67 | pads with zero bits to a byte boundary |
| `Deflate.CompressBlock` | sources/libs/codec-deflate/deflate.c:41-55 | writes one stored block and reports its size |
| `Deflate.CompressStream` | sources/libs/codec-deflate/deflate.c:72-89 | writes the blocks of 65535 bytes, the last one shorter, for every input, and reports the bytes written |
| `Deflate.StoredIsStream` | sources/libs/codec-deflate/deflate.c:41-89 | what is written is a well-formed stream whose meaning is the input |
| `Deflate.RoundTrip` | sources/libs/codec-deflate/deflate.c:72-89 | decompressing the compressed form returns every input, with its size |
| `Crc32.NibbleIsFourBits` | sources/libs/brutal-hash/crc32.c:3-32 | one table step is four steps of bit-serial division |
| `Crc32.RegisterAppend` | sources/libs/brutal-hash/crc32.c:34-57 | feeding a message in pieces gives the same register |
| `Crc32.Update` | sources/libs/brutal-hash/crc32.c:23-32 | the table loop computes the bit-serial register |
| `Crc32.Checksum.Pass` | sources/libs/brutal-hash/crc32.c:34-57 | checksum and count are those of everything that passed |
| `Crc32.Checksum.Get` | sources/libs/brutal-hash/crc32.c:67-70 | the final CRC of everything that passed |
| `CrcLaws.RegisterIsFeed` | sources/libs/brutal-hash/crc32.c:23-32 | the register after a message is the division, over bit strings, of the bits of the message in stream order |
| `CrcLaws.FeedLinear` | sources/libs/brutal-hash/crc32.c:23-32 | the division is linear in the start of the register and in the message |
| `CrcLaws.Residue` | sources/libs/brutal-hash/crc32.c:23-70 | every message followed by its own checksum, least significant byte first, has the checksum 0x2144DF1C |
| `CrcLaws.EmptyMessage` | sources/libs/brutal-hash/crc32.c:9-21 | the checksum of the empty message is 0 |
| `CrcLaws.BurstNoticed` | sources/libs/brutal-hash/crc32.c:23-70 | two different messages that agree outside of 32 consecutive bits have different checksums |
| `Gzip.SkipFields` | sources/libs/codec-gzip/gzip.c:74-114 | the optional header fields are skipped exactly as the flags announce them |
| `Gzip.Decompress` | sources/libs/codec-gzip/gzip.c:42-144 | wrong magic, method or flags are refused; otherwise the body is decompressed and accepted exactly if the stored CRC and the stored length agree with the output |
| `Gzip.Compress` | sources/libs/codec-gzip/gzip.c:161-200 | header, stored stream and trailer of the input |
| `Gzip.CompressedIsMember` | sources/libs/codec-gzip/gzip.c:161-200 | what is written is a well-formed member with that meaning |
| `Gzip.RoundTrip` | sources/libs/codec-gzip/gzip.c:42-200 | decompression returns the input if and only if it is shorter than 2^32 bytes |
| `Containers.SlotFind` | sources/libs/brutal-ds/slot.c:53-65 | the lowest free slot, or none exactly if all are used |
| `Containers.SlotAlloc` | sources/libs/brutal-ds/slot.c:67-81 | the lowest handle not in use; all other handles keep their objects, also when the table grows, which it does by a quarter and only when full |
| `Containers.GrowKeepsHandles` | sources/libs/brutal-ds/slot.c:5-28 | growing the table keeps every handle and every reference |
| `Containers.Ring.Push` | sources/libs/brutal-ds/ring.c:22-34 | appends unless full, across the wrap-around |
| `Containers.Ring.Pop` | sources/libs/brutal-ds/ring.c:36-48 | takes the oldest element |
| `Containers.PushAppends` | sources/libs/brutal-ds/ring.c:22-34 | on any ring that is not full, through the wrap-around, a push puts the element behind all others |
| `Containers.PopTakes` | sources/libs/brutal-ds/ring.c:36-48 | a pop takes the oldest element |
| `Containers.FirstInFirstOut` | sources/libs/brutal-ds/ring.c:22-48 | over any run of a bounded queue, what was there and what was accepted leaves in that order |
| `Containers.Ring.Run` | sources/libs/brutal-ds/ring.c:22-48 | any sequence of pushes and pops on the ring answers as the bounded queue does, operation by operation |
| `Capabilities.HeldIsAlive` | sources/kernel/object.c:30-55 | an object somebody holds has a positive count, is listed and has not been destroyed |
| `Capabilities.RefKeeps` | sources/kernel/object.c:30-33 | taking a reference keeps count = holders for every object |
| `Capabilities.UnrefKeeps` | sources/kernel/object.c:35-55 | so does giving one back while others remain |
| `Capabilities.KillKeeps` | sources/kernel/object.c:35-55 | so does the last one: the object leaves the table once and hands what it held to its destructor |
| `Capabilities.TransferKeeps` | sources/kernel/domain.c:39-67 | so does moving references between an object and running code |
| `Capabilities.CreateKeeps` | sources/kernel/object.c:9-28 | so does creating an object |
| `KernelRuns.Run` | sources/kernel/object.c:9-78 | over any run of creating, dropping, adding, removing, looking up, sending and receiving (with or without a domain): each counter is the number of holders, the table lists exactly the objects that are held, the destructor of every other one has run exactly once, and the log of the run says what each step did to channels, handles and references |
| `KernelRuns.InvAccounts` | sources/kernel/object.c:9-78 | what the invariant means for each object: counter, listing and destruction |
| `Kernel.KernelState.ObjectInit` | sources/kernel/object.c:9-28 | a new object with one reference, listed in the global table |
| `Kernel.KernelState.ObjectRef` | sources/kernel/object.c:30-33 | one more reference, nothing else |
| `Kernel.KernelState.ObjectDeref` | sources/kernel/object.c:35-55 | one reference less; at zero the object and what only it held are destroyed, each once; live objects keep their state |
| `Kernel.KernelState.GlobalLookup` | sources/kernel/object.c:57-78 | returns an object exactly if it is the one of that id, listed, and of the wanted type or any type was wanted; it takes one reference |
| `Kernel.KernelState.ReleaseSlots` | sources/kernel/domain.c:5-18 | destroying a domain gives back each of its handles once |
| `Kernel.KernelState.DomainAdd` | sources/kernel/domain.c:39-50 | a fresh handle for the object; all other handles stay |
| `Kernel.KernelState.DomainRemove` | sources/kernel/domain.c:52-67 | removes exactly that handle; bad handle changes nothing |
| `Kernel.KernelState.DomainLookup` | sources/kernel/domain.c:69-91 | returns an object exactly if the handle names it in the domain's table and it is of the wanted type or any type was wanted; it takes one reference |
| `Kernel.KernelState.ParcelPack` | sources/kernel/parcel.c:3-28 | all flagged handles resolve, or everything is given back |
| `Kernel.KernelState.ParcelUnpack` | sources/kernel/parcel.c:30-52 | each object of the parcel gets its own fresh handle in the receiver's domain |
| `Kernel.KernelState.ParcelDeinit` | sources/kernel/parcel.c:54-63 | gives back exactly the parcel's references |
| `Kernel.KernelState.ChannelSend` | sources/kernel/channel.c:20-38 | full, bad handle and success told apart; success queues the resolved parcel last, failure changes nothing |
| `Kernel.KernelState.ChannelRecv` | sources/kernel/channel.c:40-51 | the oldest parcel leaves the ring and is delivered; all other queues and handle tables stay; empty changes nothing |
| `ChannelRuns.SendOrder` | sources/kernel/channel.c:20-51 | over any run of the kernel, messages leave a channel in the order in which they were sent: first queue and sends are takes and last queue |
| `ChannelRuns.MatchedParcel` | sources/kernel/channel.c:20-51 | what the j-th receive takes is the very parcel of the j-th send, with the objects named at that time |
| `ChannelRuns.EveryTakeWasSent` | sources/kernel/channel.c:20-51 | every receive has its send |
| `ChannelRuns.ObjectsArrive` | sources/kernel/parcel.c:12-47 | over any run, each flagged argument becomes a handle of the receiver that names the very object which the sender's handle named when the message was sent; other arguments arrive unchanged |
| `ChannelRuns.HandleStays` | sources/libs/brutal-ds/slot.c:5-98 | over any run, a handle that nobody removes names the same object as long as its domain lives |
| `BlockingIpc.WaitSend` | sources/kernel/channel.c:61-75 | the blocker function is true exactly if the channel lock was free and the send was not refused as full |
| `BlockingIpc.WaitRecv` | sources/kernel/channel.c:77-91 | likewise for receiving |
| `BlockingIpc.FiresOnce` | sources/kernel/sched.c:66-83 | over every run of a blocking call the blocker function returns true at most once, and the call succeeds exactly if it did |
| `BlockingIpc.AllOrNothing` | sources/kernel/channel.c:93-137 | for any operation that changes nothing when it asks for another try: success means one completed operation at one moment, timeout and interruption mean none, and at every other moment the call leaves the shared state alone |
| `BlockingIpc.SendBlocking` | sources/kernel/channel.c:93-113 | a blocking send that reports success queued its message at exactly one moment; one that reports a bad handle, a timeout or an interruption changed nothing |
| `BlockingIpc.RecvBlocking` | sources/kernel/channel.c:115-137 | a blocking receive that succeeds took and delivered the oldest message at exactly one moment; any other changed nothing |
| `BlockingIpc.WhyGivenUp` | sources/kernel/sched.c:258-292 | a timeout needs a poll after the deadline, an interruption a stop |
| `SchedState.IdleOnlyAtHome` | sources/kernel/sched.c:203-215 | an idle task is next only on its own CPU |
| `SchedState.NextKeeps` | sources/kernel/sched.c:110-154 | giving a CPU a task that is next nowhere else keeps the scheduler invariant |
| `Scheduler.Sched.Detach` | sources/kernel/sched.c:110-126 | the task is next nowhere and its end time is now |
| `Scheduler.Sched.Next` | sources/kernel/sched.c:150-154 | one CPU and two task times change, nothing else |
| `Scheduler.Sched.CpuOf` | sources/kernel/sched.c:97-108 | the first CPU on which the task is next |
| `Scheduler.Sched.Initialize` | sources/kernel/tasking.c:63-76 | establishes the invariant: every CPU runs its own boot task and has its own idle task |
| `Scheduler.Sched.Peek` | sources/kernel/sched.c:164-185 | a task with least end time, first in the queue among equals; none exactly if every queued task is unstarted, blocked, stopped outside a system call, new to a CPU in this tick, or next on some CPU already |
| `Scheduler.Sched.PollAll` | sources/kernel/sched.c:258-292 | every blocked task is polled once: it waits on exactly if its function was false, its deadline has not passed and it was not stopped, and the result says which failed first |
| `Scheduler.Sched.UpdateBlocked` | sources/kernel/sched.c:258-301 | exactly the CPUs whose task cannot run are sent to their idle task; a blocked task is woken for the reasons above and no other |
| `Scheduler.Sched.DispatchToCurrent` | sources/kernel/sched.c:189-201 | succeeds exactly if the task is current somewhere, and then returns it to the first such CPU |
| `Scheduler.Sched.DispatchToIdle` | sources/kernel/sched.c:203-215 | takes the first CPU whose next task is idle, if any |
| `Scheduler.Sched.DispatchToActive` | sources/kernel/sched.c:222-242 | evicts the first task that has run longest, and refuses exactly if all came in this tick |
| `Scheduler.Sched.Dispatch` | sources/kernel/sched.c:244-254 | the CPU is one where the task is current, else an idling one, else the one whose task has run longest; failure means every CPU has a task that came in this tick |
| `Scheduler.DispatchShrinks` | sources/kernel/sched.c:327-341 | each dispatch leaves strictly fewer queued tasks that did not run in this tick |
| `Scheduler.WaitingBounded` | sources/kernel/sched.c:327-341 | of which there are at most as many as queued tasks |
| `Scheduler.Sched.YieldCpu` | sources/kernel/sched.c:315-325 | this CPU gets the longest waiting eligible task, or idles exactly if there is none; a task that cannot run does not stay; whoever is given a CPU is started, not blocked, and stopped only inside a system call, or is that CPU's idle task |
| `Scheduler.Sched.ScheduleAll` | sources/kernel/sched.c:327-341 | the dispatch loop ends within as many rounds as there are queued tasks, each round gives a CPU to the eligible task that waited longest, and afterwards no eligible task is left or every CPU is busy; whoever is given a CPU is started, not blocked, and stopped only inside a system call, or is that CPU's idle task |
| `Scheduler.Sched.SwitchCpu` | sources/kernel/sched.c:343-348 | this CPU's current task becomes its next one |
| `Scheduler.Sched.BlockCurrent` | sources/kernel/sched.c:66-83 | blocks the current task unless the blocker function was true at once |
| `Scheduler.Sched.StopTask` | sources/kernel/sched.c:45-64 | marks the task stopped, once |
| `Scheduler.Sched.StartTask` | sources/kernel/sched.c:34-43 | starts and queues the task |
| `Scheduler.Sched.Run` | sources/kernel/sched.c:34-348 | over every interleaving of yield, tick, schedule, switch, block, stop, create and start, in every state on the way: no CPU lacks a next task, no task is next on two CPUs, idle tasks stay at home; and each step does what its function does |
| `SchedRuns.StoppedNeverNext` | sources/kernel/sched.c:45-348 | over any run, a task stopped outside of system calls that enters none again is never made next again by any CPU, and after each yield or scheduling round no CPU that was running it goes on with it |
| `SchedRuns.PollEndsWait` | sources/kernel/sched.c:258-341 | the next yield or scheduling round of any CPU ends the wait of a queued task exactly if its function was true, its deadline has passed or it was stopped, with the matching result |
| `RwLock.StepInv` | sources/libs/brutal-sync/rwlock.c:6-92 | every step of every thread keeps the counters equal to the holders and what each thread inside the inner lock relies on |
| `RwLock.Exclusion` | sources/libs/brutal-sync/rwlock.c:6-92 | in every reachable state of any number of threads a writer is alone, there is at most one, and no release assertion has fired |
| `RwLock.CountersAreHolders` | sources/libs/brutal-sync/rwlock.c:19-92 | when no call is in progress the counters are the numbers of readers and writers, and nobody is pending |
| `RwLock.WritersFirst` | sources/libs/brutal-sync/rwlock.c:19-38 | a read attempt that takes the inner lock while a writer is pending fails, even if the writer stops pending before the attempt looks |
| `RwLock.AttemptDecided` | sources/libs/brutal-sync/rwlock.c:19-38 | a read attempt gets the lock exactly if no writer is pending or writing when it looks, whatever the others do meanwhile; otherwise it leaves with nothing |
| `RwLock.WriteDecided` | sources/libs/brutal-sync/rwlock.c:66-83 | a write attempt gets the lock exactly if nobody reads or writes when it looks, whatever the others do meanwhile |
| `RwLock.AcquiredBeforeBack` | sources/libs/brutal-sync/rwlock.c:6-64 | a thread that called rwlock_acquire_read or rwlock_acquire_write does not come back before it held the lock |
| `RwLock.TriesOnce` | sources/libs/brutal-sync/rwlock.c:19-83 | from any point of a try call on, the call has come back or is in the same attempt and no less far: it takes the inner lock once and never counts as a pending writer |
| `RwLock.EarlyAttemptMaySucceed` | sources/libs/brutal-sync/rwlock.c:6-64 | an attempt that merely began while a writer was pending can succeed: a concrete run |
| `RwLock.AsIfAlone` | sources/libs/brutal-sync/lock.c:5-50 | a thread inside the inner lock proceeds as if it were alone, whatever the others do in between |
| `Bitmap.Bits.Set` | sources/libs/brutal-ds/bits.h:24-37 | changes that bit of the packed bytes and no other |
| `Bitmap.Bits.SetRange` | sources/libs/brutal-ds/bits.c:14-30 | fills the range and returns by how much the number of set bits moved |
| `Bitmap.Bits.FindFree` | sources/libs/brutal-ds/bits.c:44-83 | the lowest free run from the start on, or the highest one below it leaving out bit 0; empty exactly if there is none |
| `PageFrames.Pmm.AllocPages` | sources/kernel/pmm.c:109-157 | fails exactly if the size is 0 or no run fits, whatever the hints are; the range was free, is apart from all live ranges, and the byte counter follows the bits; it is the lowest or highest run from the hint, or from the end if there is none, and the hint moves behind it |
| `PageFrames.Pmm.Used` | sources/kernel/pmm.c:159-175 | marks the range and counts the pages that changed |
| `PageFrames.Pmm.Unused` | sources/kernel/pmm.c:177-208 | frees the range, counts the pages that changed and moves the hints back over it; address 0 is refused |
| `PageFrames.Pmm.Run` | sources/kernel/pmm.c:109-208 | over any run in which callers give back only what they were given: each call hands out, frees or reserves as stated, the ranges in use never overlap, are marked used, and the counter moves by 4096 for each bit |
| `IpcBuffers.Pack.Ensure` | sources/libs/ipc/pack.c:24-58 | what was packed survives the move to a larger buffer of whole pages |
| `IpcBuffers.Pack.Bytes` | sources/libs/ipc/pack.c:60-66 | appends the bytes, through any regrowth |
| `IpcBuffers.Pack.PackHandle` | sources/libs/ipc/pack.c:68-73 | appends the number and records the handle |
| `IpcBuffers.Pack.PackText` | sources/libs/ipc/pack.c:75-79 | length and characters |
| `IpcBuffers.Pack.PackSlice` | sources/libs/ipc/pack.c:81-89 | length and elements in order |
| `IpcBuffers.Pack.PackValue` | sources/libs/ipc/pack.c:60-89 | appends the encoding of any nesting of values and records its handles in order |
| `IpcBuffers.Unpack.UnpackHandle` | sources/libs/ipc/unpack.c:19-25 | skips the number and takes the next delivered handle |
| `IpcBuffers.Unpack.UnpackText` | sources/libs/ipc/unpack.c:27-34 | the text that was packed |
| `IpcBuffers.Unpack.UnpackElems` | sources/libs/ipc/unpack.c:36-49 | the elements that were packed, each with its delivered handles |
| `IpcBuffers.Unpack.UnpackValue` | sources/libs/ipc/unpack.c:13-49 | inverts the encoding of every value of the type, with the k-th handle replaced by the k-th delivered one |
| `IpcBuffers.RoundTrip` | sources/libs/ipc/hooks.c:30-68 | unpacking what was packed returns the value with the delivered handles, for any nesting |
| `IpcCalls.MeaningPreserved` | sources/libs/ipc/hooks.c:30-68 | over any run of the kernel, a value sent as the j-th message means the same to whoever takes the j-th message as it meant to the sender: equal up to handle numbers, and each handle names the sender's object; argument 0 arrives as a handle that names the sender's memory object |
| `IpcCalls.Transfer` | sources/libs/ipc/hooks.c:24-68 | packing, sending, receiving after all earlier messages, and unpacking: it succeeds exactly if the channel has room and the handles of the memory object and of the value are good; then the receiver's value means what the sender's did and it holds a handle of the memory object; otherwise nothing changes |
| `IpcCalls.CallSendable` | sources/libs/ipc/hooks.c:30-45 | a call can be sent exactly if its memory object and all handles of its value are good in the sender's table |

## Left out

- Range allocator, handover memory map and ordered vector insertion: their natural invariants do not hold of the code.
- `space_destroy`, `event_unbind_all` and `sched_finalize`: they skip entries while splicing, or test the wrong predicate.
- Interrupt retention around locks, TLB flushes, context switching, inline assembly, graphics, IDL and system-call plumbing: hardware effects or code without an exact specification.
- `heap_alloc_deinit` (gives all major blocks back to the system), `vmm_initialize` and `pmm_initialize` (build the kernel's tables and the bitmap from the boot loader's memory map), `gzip_probe` (compares two magic bytes) and the codec wrappers that run a stream function over memory buffers.
- Integer widths: sizes, addresses, ticks and counts are unbounded, except where the code narrows them (the 32-bit comparison of free bytes in `heap_alloc_release`, 16- and 32-bit words of the formats, `(size_t)-1` hints). Overflow of `size_t` is not modelled.
- Panics and assertion failures are outcomes where the code decides on them (a mapped page, a dead pointer) and preconditions where they state what callers owe (alignment, equal range sizes, lengths below 16, at most four handles in a message).
- Every section under a lock is one step, except for `RwLock`, which is stepped one memory access at a time. Memory is sequentially consistent there.
- HeapAllocator.HeapAlloc.Acquire: a refusal of the system to hand out memory is a panic in `major_block_create` and is not modelled; the address it hands out is a parameter.
- HeapAllocator.HeapAlloc.Release: the magic number check is modelled as knowing whether a live header stands at that address.
- PageTables.Vmm.MapPage: user addresses are those with PML4 index below 255, or any for the kernel's own space; TLB flushes are left out.
- BitReader.IoRBits.Ensure: the end of the input inside a refill is not guarded in the code, so enough input is a precondition.
- InflateBlocks.Decompress: stated for streams that are well formed up to the first refusal. Distance symbols 30 and 31, a repeat code before any length, a complement mismatch of a stored block and a truncated input are not guarded in the code, or guarded by assertions only, and are preconditions.
- Deflate.CompressStream: only the stored-block compressor exists in the code. The reader and the writer never fail and are never short.
- Gzip.Decompress: the header checksum is read and ignored, as in the code. Input ends are preconditions as above. The checksum is taken over the output in one piece; `Crc32.RegisterAppend` says that pieces make no difference.
- Kernel.KernelState.DomainRemove: the slot is released before the reference is given back, while the code does it the other way round under the lock; the caller's own reference to the domain makes the two orders equal.
- Kernel.KernelState.ObjectInit: one destructor stands for those of all object types; memory objects and spaces release no references in the model.
- BlockingIpc.AllOrNothing: covers a call whose task is resumed only after it was unblocked. That the scheduler never resumes a blocked task is not claimed, because `sched_yield` does not look at the `current` of other CPUs and a task may then run on two of them.
- Scheduler.Sched.ScheduleAll: no fairness is claimed; a task dispatched early in a round can be evicted by one that returns to its own CPU, and then waits for the next tick.
- Scheduler.Sched.YieldCpu: what the blocker functions answer is a parameter; `BlockingIpc` says what they do.
- RwLock.Exclusion: no progress is claimed; the code can spin for ever.
- Bitmap.Bits.FindFree: a downward search whose start is clamped reads one bit past the array; that bit is taken as used.
- PageFrames.Pmm.AllocPages: out of memory is a panic in the code; the model returns it.
- IpcBuffers.Pack.PackValue: generated packing functions are represented by values and shapes packed field by field; padding inside plain data is part of its bytes. Mapping and closing of the memory objects is left out.
- IpcCalls.Transfer: the memory object sent along is taken to hold the packed bytes on both sides; the kernel model keeps no contents of memory objects.
- IpcBuffers.Unpack.UnpackValue: the code does not check the input; that it is the encoding of some value of the type is a precondition.
