# CLAOS kernel models

Models of the stateful parts of CLAOS, a 32-bit x86 kernel, and proofs of what they are for.

- **ChaosFS** (`ChaosLayout`, `Drive`, `ChaosSpec`, `ChaosFs`, `ChaosCrash`, `ChaosOverwrite`, `ChaosMap`, `ChaosRun`,
  `MkChaosFs`): the file table, its byte-exact layout on 512-byte sectors and the log of sector writes. Any run of calls
  refines a map from paths to files; a crash is a prefix of the log, and a remount shows the old or the new contents.
  `MkChaosFs` is the second writer of the same layout.
- **Memory** (`Pmm`, `HeapList`, `HeapLinks`, `SlabPages`, `HeapOwner`, `HeapSteps`, `Heap`, `LuaRealloc`, `Paging`,
  `Machine`): the frame bitmap, the two tiers of the heap with all headers and free lists kept in words of memory,
  `realloc` on top, page tables with the hardware's walk, and all of them together over one memory.
- **Scheduler** (`Scheduler`): round robin as steps of a machine, with runs of ticks, sleeps, exits and new tasks.
- **TCP** (`Tcp`, `TcpStream`): the receive ring and state machine, then both tasks interleaved statement by statement
  over a network that loses, repeats and reorders segments.
- **JSON** (`JsonText`, `JsonScan`, `JsonEscape`, `ToolCalls`, `Responses`, `CutResponses`, `ContentArray`): every text of RFC 8259
  against the scanner that looks at characters, whole and cut short.
- **BSP** (`BspGeometry`, `BspTree`, `BspDivide`, `BspJoin`, `BspBuild`, `BspTraverse`): the map compiler over exact reals,
  and the traversal of the trees it makes.
- **Kernels of arithmetic and codecs** (`Checksum`, `Dns`, `Chunked`, `Raster`).

`Base` and `Arith` hold machine integers, byte order, substrings and division by constants. Integers are unbounded; where
the modelled code can wrap in 32 bits the wrap is written out, or "Left out" names the inputs that are not asked for. A class is an object the source updates in place; its methods are
proved against functions on values, and the theorems are lemmas about those.

Where the code does not keep what its comments promise, the model follows the code and the exact condition is proved:
paths longer than 107 bytes (`ChaosCrash.PlaceSound`, `ChaosOverwrite.ReadBackIff`), overwrites in place
(`ChaosOverwrite.OverwriteAtomicIff`), framebuffers in the last 4 MB (`Paging.Vmm.MapFramebuffer`), the last exit and exits
cut by the timer (`Scheduler.ExitStarves`, `Scheduler.RunKeeps`), a full ring and a FIN out of order
(`TcpStream.LosslessIff`, `TcpStream.FinAcksAll`), `\b`, `\f` and `\u` escapes (`JsonEscape.ExtractMeans`), tools named
"input" (`Responses.ToolCallsExact`), responses cut in a tool call (`CutResponses.CutResponse`, `ToolCalls.FindKeyIff`),
wrapped chunk sizes (`Chunked.LoopsIff`, `Chunked.Stuck`, `Chunked.StuckAtOne`), leaves that are not convex
(`BspBuild.LeafConvexIff`), far cameras (`BspTraverse.CameraSideIff`), compressed names
(`Dns.NameSkipped`), the file counter (`ChaosMap.WriteDrift`), short or wrapped sleeps (`Scheduler.SleepBegins`), overlapping memory regions
(`Pmm.FrameAllocator.Init`), `realloc` near 2^32 (`LuaRealloc.Realloc`) and crashes between two table sectors
(`ChaosCrash.CrashPlaceSound`).

`dafny verify dfyconfig.toml` checks everything.

## Model

| member | source | states |
|---|---|---|
| ChaosLayout.SuperblockRoundTrip | fs/chaosfs.h:38-48 | Decoding the sector written for a superblock gives the superblock back, for every field value. |
| ChaosLayout.EntryRoundTrip | fs/chaosfs.h:51-58 | Decoding the 128 bytes of a table entry gives the entry back. |
| ChaosLayout.SlotOfEncodeFour | fs/chaosfs.h:51-58 | Four entries packed into a sector are found again at their own places. |
| Drive.AtaDrive.ReadSectors | fs/chaosfs.c:210-224 | A read succeeds exactly when its range lies on the drive, and then the buffer holds those bytes and nothing else of it changes. |
| Drive.AtaDrive.WriteSectors | fs/chaosfs.c:49-57 | A write lands sector by sector in ascending order: the log names the sectors in order and the drive is the log replayed. |
| Drive.ReplayAppend | fs/chaosfs.c:305-318 | Two runs of sector writes replayed one after the other are their concatenation replayed. |
| Drive.ReplayRun | fs/chaosfs.c:49-57 | After a run of writes every sector of its range holds its own data and every other sector what it held. |
| ChaosSpec.Find | fs/chaosfs.c:64-77 | The lowest live slot whose name is the path, or -1 when no slot matches. |
| ChaosSpec.FindFree | fs/chaosfs.c:80-88 | The lowest empty or deleted slot, or -1 when every slot is live. |
| ChaosSpec.NameOfFileName | fs/chaosfs.c:310-312 | A stored name is the path cut to its first 107 bytes. |
| ChaosSpec.ExtentInRange | fs/chaosfs.c:200-202 | The sectors of a live extent lie on the drive, behind the metadata and below the allocation mark. |
| ChaosSpec.FewestBlocks | fs/chaosfs.c:238-239 | The number of blocks is the least, from one on, that holds the data. |
| ChaosSpec.BlocksForIs | fs/chaosfs.c:238-239 | The rounding in 32 bits gives that number unless its addition wraps. |
| ChaosFs.ChaosFs.FindSlot | fs/chaosfs.c:64-77 | The search loop finds exactly the slot of the specification. |
| ChaosFs.ChaosFs.FindFreeSlot | fs/chaosfs.c:80-88 | The free-slot loop finds exactly the slot of the specification. |
| ChaosFs.ChaosFs.Sync | fs/chaosfs.c:32-61 | One superblock sector, then the 64 table sectors in ascending order, are written, and they hold what is in memory. |
| ChaosFs.ChaosFs.Mount | fs/chaosfs.c:90-165 | Mounting succeeds exactly for the right magic and version, and the superblock and table in memory are then those on the drive. |
| ChaosFs.ChaosFs.DiskStats | fs/chaosfs.c:366-387 | The reported count is the number of live entries, whatever the counter in the superblock says. |
| ChaosFs.ChaosFs.WriteData | fs/chaosfs.c:296-315 | The chunk loop writes exactly the zero-padded sectors of the data, in ascending order, and succeeds exactly when they lie on the drive. |
| ChaosFs.ChaosFs.WriteChunk | fs/chaosfs.c:299-313 | One zeroed and filled chunk buffer writes the sectors of its part of the data. |
| ChaosFs.ChaosFs.ReadData | fs/chaosfs.c:204-224 | The chunk loop copies exactly the bytes of the extent and leaves the rest of the buffer. |
| ChaosFs.ChaosFs.ReadChunk | fs/chaosfs.c:210-224 | One chunk of a read copies its bytes to their place and touches nothing else. |
| ChaosFs.ChaosFs.Read | fs/chaosfs.c:190-227 | A read returns the file that a lookup on the drive shows, cut to the buffer, or -1 when there is none. |
| ChaosFs.ChaosFs.Overwrite | fs/chaosfs.c:239-267 | The overwrite branch carries out exactly its plan of sector writes and new metadata. |
| ChaosFs.ChaosFs.Place | fs/chaosfs.c:270-318 | The branch for fresh blocks carries out exactly its plan; without a free slot nothing changes. |
| ChaosFs.ChaosFs.Write | fs/chaosfs.c:229-319 | With room, a write does its plan and returns 0, or refuses and changes nothing. |
| ChaosFs.ChaosFs.Delete | fs/chaosfs.c:321-331 | A delete does its plan, or returns -1 with nothing changed when the path is not there. |
| ChaosFs.ChaosFs.Stat | fs/chaosfs.c:333-342 | Size and flags are those of the file a lookup shows. |
| ChaosFs.ChaosFs.Mkdir | fs/chaosfs.c:344-363 | An existing path is left alone with result 0; otherwise the plan is done, or refused when the table is full. |
| ChaosCrash.CutSync | fs/chaosfs.c:32-61 | An image cut inside a sync has the new superblock once one write is done and the new table up to the cut. |
| ChaosCrash.CrashPlace | fs/chaosfs.c:270-318 | Crash atomicity of create and grow: cut at any sector write and remounted, the path shows its old contents before the commit point and exactly the new ones from it on; every other path is as before. |
| ChaosCrash.CrashOneSlot | fs/chaosfs.c:32-61 | A sync that changes one slot is atomic for every path. |
| ChaosCrash.CrashDelete | fs/chaosfs.c:321-331 | Cut anywhere, a delete shows the old file or none, and no other path changes. |
| ChaosCrash.CrashMkdir | fs/chaosfs.c:344-363 | Cut anywhere, a mkdir shows no entry or the empty directory, and no other path changes. |
| ChaosCrash.PlaceTable | fs/chaosfs.c:270-315 | What the table of a create or grow shows, path by path. |
| ChaosCrash.PlaceSound | fs/chaosfs.c:270-318 | Create and grow keep live names unique, extents disjoint, below the mark and off the metadata, and disk equal to memory, if and only if the path has at most 107 bytes or its first 107 bytes are no live name. |
| ChaosCrash.PlaceCollides | fs/chaosfs.c:310-312 | The other half: a longer path whose first 107 bytes are a live name breaks the invariant. |
| ChaosCrash.ShortNames | fs/chaosfs.c:64-77 | No live name is longer than 107 bytes, so a longer path is never found. |
| ChaosCrash.DeleteSound | fs/chaosfs.c:321-331 | A delete keeps the invariant. |
| ChaosCrash.MkdirSound | fs/chaosfs.c:344-363 | A mkdir keeps the invariant if and only if the path has at most 107 bytes or its first 107 bytes are no live name. |
| ChaosCrash.CrashPlaceSound | fs/chaosfs.c:270-318 | A volume that a crash cut inside a create or grow satisfies the invariant again, if and only if the cut does not fall between the table sectors of the new slot and of the erased one. |
| ChaosCrash.CrashDeleteSound | fs/chaosfs.c:321-331 | Cut anywhere, a delete leaves a sound volume. |
| ChaosCrash.CrashMkdirSound | fs/chaosfs.c:344-363 | Cut anywhere, so does a mkdir of a path that fits. |
| ChaosOverwrite.CrashOverwrite | fs/chaosfs.c:241-267 | What a cut overwrite shows: the old size with the sectors written so far replaced, until the table sector commits; other paths are untouched. |
| ChaosOverwrite.OverwriteSound | fs/chaosfs.c:241-267 | An overwrite in place keeps the invariant. |
| ChaosOverwrite.OthersApart | fs/chaosfs.c:241-256 | The sectors an overwrite writes belong to no other live file. |
| ChaosOverwrite.OverwriteAtomicIff | fs/chaosfs.c:241-267 | An overwrite in place is crash-atomic at every cut if and only if the change is tear-free: at most one sector differs if the size stays, or no byte of the old file differs if it does not. |
| ChaosOverwrite.TearFreeIsEnough | fs/chaosfs.c:241-256 | A tear-free change has no torn state. |
| ChaosOverwrite.TearFreeIsNeeded | fs/chaosfs.c:241-256 | A change without a torn state is tear-free. |
| ChaosOverwrite.ReadBackIff | fs/chaosfs.c:229-319 | After a write that succeeds the path reads back its data if and only if it has 1 to 107 bytes. |
| ChaosMap.AbsLookup | fs/chaosfs.c:190-227 | The map from paths to files that a volume stands for is what lookups show. |
| ChaosMap.AbsFull | fs/chaosfs.c:80-88 | The table is full exactly when the map holds 256 files. |
| ChaosMap.WriteAbs | fs/chaosfs.c:229-319 | A write is one step of the map: it updates its path and no other, and its sector writes lead from one sound image to the next. |
| ChaosMap.DeleteAbs | fs/chaosfs.c:321-331 | A delete is one step of the map. |
| ChaosMap.MkdirAbs | fs/chaosfs.c:344-363 | A mkdir is one step of the map. |
| ChaosMap.CrashedMap | fs/chaosfs.c:270-318 | After a crash inside a create or grow the map is the old one before the commit point and the one with the new file from it on. |
| ChaosMap.NamesCount | fs/chaosfs.c:376-385 | With unique names the live count is the number of paths in the map. |
| ChaosMap.WriteDrift | fs/chaosfs.c:271-296 | The file counter of the superblock goes off by one with every write that grows a file, and with no other write. |
| ChaosMap.DeleteDrift | fs/chaosfs.c:320-332 | A delete does not change what the counter is off. |
| ChaosMap.MkdirDrift | fs/chaosfs.c:345-364 | Nor does a mkdir. |
| ChaosRun.Do | fs/chaosfs.c:190-363 | Every call gives the reply of the map and leaves the volume the map says; whether a write stays in place, how far the mark moves and how many blocks a new file gets is told by the least number of blocks that holds the data. |
| ChaosRun.Run | fs/chaosfs.c:190-363 | Refinement over every run: any sequence of calls with room gives exactly the replies of the map and leaves the map it computes. |
| ChaosRun.Open | fs/chaosfs.c:90-165 | Mounting a sound volume shows the map of its image. |
| ChaosRun.CrashThenRun | fs/chaosfs.c:90-165 | A mount after such a crash goes on from that map, over any run of calls. |
| ChaosRun.RunThenRemount | fs/chaosfs.c:90-165 | After any run, mounting the drive again shows the same map. |
| MkChaosFs.SpliceEntry | tools/mkchaosfs.py:88-96 | Rewriting an entry of an image file changes that entry and no other. |
| MkChaosFs.SpliceSuperblock | tools/mkchaosfs.py:59-66 | Rewriting the superblock changes nothing else the kernel reads. |
| MkChaosFs.FlatEntry | tools/mkchaosfs.py:68-86 | The entry the tool reads by offset is the one the kernel reads by sector. |
| MkChaosFs.ImageFile.Format | tools/mkchaosfs.py:99-130 | A formatted image is a sound volume with the empty map and all its blocks free. |
| MkChaosFs.ImageFile.ReadTable | tools/mkchaosfs.py:43-86 | The tool reads the superblock and table the kernel would. |
| MkChaosFs.ImageFile.WriteEntry | tools/mkchaosfs.py:88-96 | The kernel then reads in that slot an entry of the same name, extent, size and flags, and every other slot, the superblock and every other byte as before. |
| MkChaosFs.ImageFile.WriteExtent | tools/mkchaosfs.py:182-189 | Data and padding land in the extent and nothing the kernel reads as metadata changes. |
| MkChaosFs.ImageFile.Remove | tools/mkchaosfs.py:132-142 | A delete by the tool removes the path from the map the kernel sees. |
| MkChaosFs.ImageFile.Insert | tools/mkchaosfs.py:153-197 | An insert adds the path with its data to the map, unless the table is full. |
| MkChaosFs.ImageFile.Add | tools/mkchaosfs.py:145-199 | Adding a file gives the kernel a sound image whose map has the path with the new data and is otherwise as before. |
| MkChaosFs.DropAbs | tools/mkchaosfs.py:132-142 | Marking an entry deleted drops its path from the map. |
| MkChaosFs.AddAbs | tools/mkchaosfs.py:171-197 | A new extent, entry and superblock add their path to the map. |
| HeapList.Conservation | kernel/heap.c:303-323 | Used bytes, free bytes and one header for each free block add up to the size of the heap. |
| HeapList.TakeTiles | kernel/heap.c:196-228 | Taking a block, split or whole, keeps the blocks an exact tiling. |
| HeapList.ReleaseTiles | kernel/heap.c:266-288 | Releasing and joining keeps the tiling. |
| HeapList.TakeCoalesced | kernel/heap.c:196-228 | Taking a block leaves no two free neighbours. |
| HeapList.ReleaseCoalesced | kernel/heap.c:270-288 | Joining both ways leaves no two free neighbours. |
| HeapLinks.SplitLinked | kernel/heap.c:205-218 | The stores of a split leave next and previous mutually inverse along the new list. |
| HeapLinks.JoinLinked | kernel/heap.c:271-288 | The stores of a join do too. |
| HeapOwner.OwnersApart | kernel/heap.c:83-289 | Two blocks that are handed out, on whichever tier, are the same block or share no byte. |
| HeapOwner.TakeLive | kernel/heap.c:196-228 | Taking a list block hands out exactly that block. |
| HeapOwner.ReleaseLive | kernel/heap.c:266-288 | Releasing a list block takes back exactly that block. |
| HeapOwner.PopLive | kernel/heap.c:128-134 | Popping a slab free list hands out exactly its first block. |
| HeapOwner.PushLive | kernel/heap.c:143-149 | Pushing a block back takes back exactly that block. |
| HeapOwner.NewPageLive | kernel/heap.c:83-116 | A fresh slab page hands out nothing. |
| HeapOwner.HeadersKeep | kernel/heap.c:196-228 | Writing only headers leaves the bytes of every block handed out. |
| SlabPages.PopOk | kernel/heap.c:128-134 | Popping keeps the chain a list of exactly free_count distinct aligned blocks. |
| SlabPages.PushOk | kernel/heap.c:143-149 | Pushing a live block keeps it so. |
| SlabPages.SlotsApart | kernel/heap.c:104-112 | Two blocks of a page do not overlap. |
| SlabPages.FreeCountSmall | kernel/heap.c:49-54 | The 16-bit free count never overflows. |
| Heap.KernelHeap.constructor | kernel/heap.c:156-176 | One free block tiles the region, its start rounded up to 16. |
| Heap.KernelHeap.ReserveFrames | kernel/main.c:264-268 | The boot loop marks exactly the frames of the heap region in use besides those that were, so that every invariant of the heap holds. |
| Heap.KernelHeap.FindFit | kernel/heap.c:196-203 | The wrapped next-fit search ends, on the first block that fits from the hint on, else from the start, and finds none only when none fits. |
| Heap.KernelHeap.SplitBlock | kernel/heap.c:205-218 | The remainder gets a header linked both ways; only header words change. |
| Heap.KernelHeap.AllocFromList | kernel/heap.c:192-231 | The list becomes exactly the old one with the block next-fit finds taken, and the hint moves on behind it; NULL only when no block is large enough. |
| Heap.KernelHeap.Absorb | kernel/heap.c:271-278 | One join: the list loses the absorbed block and the hint stays on a block of the list. |
| Heap.KernelHeap.FreeToList | kernel/heap.c:266-288 | The list becomes exactly the old one with the block released and joined both ways. |
| Heap.KernelHeap.IsSlabPtr | kernel/heap.c:73-80 | True exactly for addresses on a tracked page. |
| Heap.KernelHeap.Carve | kernel/heap.c:104-112 | The carving loop puts every block of the page on its free list once. |
| Heap.KernelHeap.InstallPage | kernel/heap.c:88-115 | The page is tracked while fewer than 128 are, and becomes the head of its class. |
| Heap.KernelHeap.SlabNewPage | kernel/heap.c:83-116 | A new page is a frame nobody used; no block handed out, and no frame used elsewhere, changes. |
| Heap.KernelHeap.PopBlock | kernel/heap.c:128-134 | The first free block is handed out, its page loses it from its list, and nothing else of the pages changes. |
| Heap.KernelHeap.FindPage | kernel/heap.c:119-127 | The newest page of the class with a free block; none only when every page of the class is full. |
| Heap.KernelHeap.SlabAlloc | kernel/heap.c:119-137 | The newest page of the class with a free block hands out its first one; only when there is none a page is made, in a frame nobody used, with all its other blocks free; NULL only when there is none and every frame is used. One new block of the class is owned and all others are as before. |
| Heap.KernelHeap.SlabFree | kernel/heap.c:140-150 | Exactly that block is no longer owned. |
| Heap.KernelHeap.SlabClassForSize | kernel/heap.c:65-70 | The smallest class that holds the size. |
| Heap.KernelHeap.Kmalloc | kernel/heap.c:178-232 | What it does, exactly: a request of at most 256 bytes gets a slab block of its class whenever the slab tier can serve it, a larger one or one the slab tier cannot serve the block next-fit finds, and NULL comes only when neither tier can. Invariants over every call: tiling, links, no free neighbours, page shapes, disjoint ownership. The new block was owned by nobody, has room for the size exactly when rounding up to 16 does not wrap, and no byte of another block or foreign frame changes. |
| HeapSteps.SlabServes | kernel/heap.c:119-137 | A slab page with a free block, or a free frame, is enough for a slab block. |
| HeapSteps.StepChanges | kernel/heap.c:119-137 | The slab tier hands out a block exactly when its pages change. |
| HeapSteps.TakeExact | kernel/heap.c:199-220 | A block that is taken has at least the size asked for and less than 32 bytes more, and what is cut off is a free block of at least 16 bytes. |
| Heap.KernelHeap.Kfree | kernel/heap.c:250-289 | Exactly the given block is taken back, unless it lies on an untracked page or outside the heap; all others keep owner and bytes. |
| Heap.KernelHeap.UsableSize | kernel/heap.c:291-301 | The size the block was handed out with. |
| Heap.KernelHeap.GetUsed | kernel/heap.c:303-312 | The sum over the blocks in use, headers included. |
| Heap.KernelHeap.GetFree | kernel/heap.c:314-323 | The sum over the free blocks. |
| LuaRealloc.CopyBlock | lib/lua/lua_shim.c:56-56 | The copied block equals the source word by word and nothing outside the destination changes. |
| LuaRealloc.Realloc | lib/lua/lua_shim.c:36-61 | The first min(old usable size, new size) bytes are kept, a block with room is returned unchanged, and no byte of any other block changes, unless the old usable size is more than that of the new block: exactly then the copy leaves it, which only sizes within 15 of 2^32 can bring about. |
| LuaRealloc.Grow | lib/lua/lua_shim.c:55-60 | Allocate, copy and free: the old block is given up for a new one with its bytes, or, only when neither tier of the heap can serve the size, nothing changes owner; the copy stays inside the new block if and only if the old usable size is at most its own. |
| HeapSteps.OwnedWords | kernel/heap.c:178-232 | Every word of a block handed out is memory. |
| Pmm.SetPageUsed | kernel/pmm.c:37-40 | Setting a page changes that page and no other. |
| Pmm.ClearPageUsed | kernel/pmm.c:43-46 | Clearing a page changes that page and no other. |
| Pmm.CountChange | kernel/pmm.c:130-131 | One page changed changes the count of used pages by one. |
| Pmm.CountAll | kernel/pmm.c:139-140 | All pages count as used exactly when none is free. |
| Pmm.FrameAllocator.Init | kernel/pmm.c:54-112 | A page is free exactly when a usable region covers it and it lies above the first megabyte and the kernel; used_pages is the number of set bits if and only if no two regions cover the same page. |
| Pmm.FrameAllocator.Alloc | kernel/pmm.c:114-141 | The first free page from the byte of the last one on, else the first of all, is marked and returned; 0 without a change only when every page is used. |
| Pmm.FrameAllocator.Free | kernel/pmm.c:143-149 | Exactly that page becomes free, and the count follows. |
| Pmm.FrameAllocator.Reserve | kernel/pmm.c:151-158 | True exactly when the page was free and in range, and then only it is marked. |
| Pmm.FrameAllocator.FreePages | kernel/pmm.c:164-166 | The reported number is the number of clear bits if and only if the machine has all 128 MB or no page is free. |
| Paging.FlagBits | kernel/vmm.c:94-103 | Adding a frame address leaves every flag bit. |
| Paging.SplitEntryFields | kernel/vmm.c:129-132 | A split entry maps its own 4 KB of the 4 MB with the flags of the page. |
| Paging.SplitDirectory | kernel/vmm.c:109-139 | After a split every address translates as before, except that the user flag of that slot is lost. |
| Paging.EmptyDirectory | kernel/vmm.c:84-93 | A new empty table maps nothing and changes no other address. |
| Paging.WriteEntry | kernel/vmm.c:102-103 | Writing one table entry maps exactly the addresses of its page. |
| Paging.ClearEntry | kernel/vmm.c:171-172 | Clearing one unmaps exactly the addresses of its page. |
| Paging.Vmm.Split | kernel/vmm.c:109-139 | The directory stays sound, and every virtual address keeps its translation, write and cache flags; no word outside page tables changes, and the new table lies in a frame that was free; without a frame nothing changes. |
| Paging.Vmm.MapPage | kernel/vmm.c:79-107 | Exactly the page is mapped with its flags, unless its slot holds a 4 MB page or needs a table and every frame is used; no other address changes, no word outside page tables, and a new table lies in a frame that was free. |
| Paging.Vmm.UnmapPage | kernel/vmm.c:164-175 | Exactly the page is unmapped, and no word outside page tables changes. |
| Paging.Vmm.Init | kernel/vmm.c:28-59 | Every address maps to itself, writable, uncached exactly in the VGA window; only the four static tables are written. |
| Paging.Vmm.FillStatic | kernel/vmm.c:34-48 | One static table maps its 4 MB page by page. |
| Paging.Vmm.SplitSlot | kernel/vmm.c:147-152 | One turn of the split loop changes no mapping and leaves a 4 MB page only when every frame is used. |
| Paging.Vmm.SplitSlots | kernel/vmm.c:145-152 | After the split loop no mapping has changed, and a slot of the range holds a 4 MB page only when every frame is used. |
| Paging.Vmm.MapFramebuffer | kernel/vmm.c:141-162 | Which addresses change, exactly: those on the pages of the range whose slot holds a table in the end, and none when the range wraps. They map to themselves, uncached. When the range ends at or below 0xFFC00000 every slot of it holds a table in the end, unless every frame is used; with an end above no 4 MB page is split. Nothing but page tables is written. |
| Paging.LoopEndsIff | kernel/vmm.c:156-158 | Exactly when the second loop ends: its cursor, going on by pages in 32 bits, comes to an address outside the range. |
| Paging.WholePages | kernel/vmm.c:154-158 | In a range of whole pages these are its own addresses, and the second loop ends. |
| Paging.Vmm.MapRange | kernel/vmm.c:154-158 | The second loop maps exactly the pages of the range whose slots are tables. |
| Paging.ConfinedTwice | kernel/vmm.c:145-158 | Calls that write only page tables, new ones in free frames, do so together. |
| Machine.OwnerAndTable | kernel/main.c:243-267 | A block handed out, on either tier, and a page table share no byte. |
| Machine.HeapStep | kernel/heap.c:178-289 | A step of the heap leaves every page table in place, apart from heap and slab pages, and every translation as it was. |
| Machine.TableStep | kernel/vmm.c:79-162 | A step that writes only page tables keeps them apart from heap and slab pages and changes no word of either. |
| Machine.HeapUnmoved | kernel/heap.c:178-289 | While its words are kept the block list, the slab pages and the bytes of every block handed out are as before. |
| Machine.StoreStep | kernel/vmm.c:79-107 | A caller that writes its own block changes no translation. |
| Machine.Kernel.constructor | kernel/main.c:243-267 | Booted in this order the tiers are apart, and every address maps to itself. |
| Machine.Kernel.Kmalloc | kernel/heap.c:178-232 | On the shared memory: all invariants of all tiers, one new owner, or none only when neither tier can serve the size; no byte of another block changed, no translation changed. |
| Machine.Kernel.Kfree | kernel/heap.c:250-289 | The same for a release: exactly the given block is taken back. |
| Machine.Kernel.Store | kernel/heap.c:178-232 | A write of a caller to its own block keeps all tiers and all translations. |
| Machine.Kernel.Split | kernel/vmm.c:109-139 | On the shared memory a split changes no byte of the heap, of a slab page or of a block handed out, and is not done only for want of a frame. |
| Machine.Kernel.MapPage | kernel/vmm.c:79-107 | Nor does mapping a page. |
| Machine.Kernel.UnmapPage | kernel/vmm.c:164-175 | Nor does unmapping one. |
| Machine.Kernel.MapFramebuffer | kernel/vmm.c:141-162 | Nor does mapping a framebuffer, with or without enough frames; which addresses change is said exactly. |
| Machine.Kernel.Run | kernel/main.c:243-267 | Over any run of allocations, releases, writes, splits, mappings, unmappings and framebuffers page tables, slab pages, heap region and blocks handed out stay pairwise apart; no byte of a block held by somebody else changes, and an address whose page no call maps, unmaps or makes part of a framebuffer keeps its translation. |
| Scheduler.NextUnique | kernel/scheduler.c:156-165 | The round-robin choice is unique. |
| Scheduler.RunKeeps | kernel/scheduler.c:41-206 | In every reachable state only the current task runs, the kernel task lives, and task_count is the number of live slots plus the number of exits that the timer cut between their two assignments. |
| Scheduler.NearerTurn | kernel/scheduler.c:156-175 | A call that does not pick a waiting task brings its turn nearer. |
| Scheduler.WaitingStep | kernel/scheduler.c:41-206 | Every step either runs a waiting task or leaves it waiting, nearer by one for each call of schedule. |
| Scheduler.BoundedWaiting | kernel/scheduler.c:128-179 | On every run a ready task, or a sleeping one whose deadline has come, is switched to within as many calls as it is slots away, at most MAX_TASKS - 1, while no call is made with one task left. |
| Scheduler.ScheduledChanges | kernel/scheduler.c:128-179 | A call changes no task but the one it leaves, the one it goes to and the sleepers whose deadline has come; a running task it leaves is ready. |
| Scheduler.TurnAgain | kernel/scheduler.c:128-179 | A task that is ready or has the processor, and neither sleeps nor exits when it has it, has it after one of the next MAX_TASKS calls. |
| Scheduler.FairTurns | kernel/scheduler.c:128-179 | Fairness over whole runs: such a task has the processor after one of any MAX_TASKS calls that follow one another, while no call is made with one task left. |
| Scheduler.MeterCounts | kernel/scheduler.c:140-154 | Within a window the CPU meter counts the calls and those that switch. |
| Scheduler.MeterShows | kernel/scheduler.c:140-154 | After a hundred calls it shows how many of them switched, and starts anew. |
| Scheduler.SleepBegins | kernel/scheduler.c:197-204 | A call of task_sleep leaves its task asleep if and only if it asks for a tick at least and the deadline does not wrap; the deadline lies ms / 10 ticks ahead. |
| Scheduler.SleepsLongEnough | kernel/scheduler.c:197-204 | A task that sleeps for ms and is switched away from is not run again before ms / 10 ticks have passed. |
| Scheduler.SleepsThrough | kernel/scheduler.c:132-138 | A sleeping task is not switched to before a call at or after its deadline. |
| Scheduler.ExitStarves | kernel/scheduler.c:41-54 | An exit hands over to a ready task exactly when task_count was above two; otherwise no later event changes anything and the task starves. |
| Scheduler.OnlyKernelLeft | kernel/scheduler.c:41-54 | With no exit lost, the task that then starves is the kernel task, the only one left. |
| Scheduler.OthersReady | kernel/scheduler.c:140-148 | Another task is ready exactly when the search leaves the current one, so the CPU meter counts the switches. |
| Scheduler.Scheduler.constructor | kernel/scheduler.c:55-71 | The kernel task alone, running. |
| Scheduler.Scheduler.Create | kernel/scheduler.c:78-123 | The lowest unused slot becomes ready, or nothing changes; -1 exactly without a slot or memory. |
| Scheduler.Scheduler.Schedule | kernel/scheduler.c:128-179 | Nothing with one task left; else expired sleepers wake, the task that is left is ready, the nearest ready task runs, and the meter counts the call. |
| Scheduler.Scheduler.Wake | kernel/scheduler.c:132-138 | Exactly the sleepers whose deadline has come are woken. |
| Scheduler.Scheduler.PickNext | kernel/scheduler.c:156-165 | The nearest ready task round robin, or the current one when none is ready. |
| Scheduler.Scheduler.Sleep | kernel/scheduler.c:197-210 | The deadline is kept in 32 bits and the next task is scheduled. |
| Scheduler.Scheduler.Exit | kernel/scheduler.c:41-54 | The slot is freed and the count lowered, unless the timer cuts in between and another task runs: then the decrement never comes. |
| Tcp.BuildParse | net/tcp.c:35-57 | A receiver reads from a segment exactly what its sender wrote, whatever the options in its header. |
| Tcp.Transitions | net/tcp.c:120-205 | Which segment leads to which state: ESTABLISHED only by a SYN-ACK of the own sequence number, CLOSED by a reset or the last acknowledgement, LAST_ACK and TIME_WAIT by the peer's FIN, FIN_WAIT_2 by the acknowledgement of the own one. |
| Tcp.Numbers | net/tcp.c:120-205 | What is acknowledged after a segment: the SYN, a FIN with the data before it, or data in order. |
| Tcp.RepliesAcknowledge | net/tcp.c:120-205 | Every reply acknowledges as far as the connection then stands, and the sequence numbers go on behind it. |
| Tcp.Connection.Close | net/tcp.c:328-346 | An open connection sends its FIN and is in FIN_WAIT_1; any other is closed at once. |
| Tcp.Pushed | net/tcp.c:93-94 | A byte put at the head is the last of the ring. |
| Tcp.NotYet | net/tcp.c:93-93 | It is not seen before the head moves. |
| Tcp.Popped | net/tcp.c:321-322 | The byte at the tail is the first of the ring. |
| Tcp.Connection.constructor | net/tcp.c:221-232 | An empty ring and a connection that has sent its SYN. |
| Tcp.Connection.RxAvailable | net/tcp.c:83-85 | The wrapped difference is the number of bytes in the ring. |
| Tcp.Connection.RxWrite | net/tcp.c:88-96 | The ring gains the data as far as it fits, one slot short of full; the rest is dropped. |
| Tcp.Connection.Receive | net/tcp.c:121-205 | The state machine: states, sequence and acknowledgement numbers and replies as specified, and payload kept only in ESTABLISHED, in order. |
| Tcp.Connection.Recv | net/tcp.c:304-326 | The oldest bytes, as many as fit, leave the ring for the buffer. |
| Tcp.Connection.Send | net/tcp.c:275-302 | What was sent is an initial part of the data, in data segments of at most 1460 bytes that carry the acknowledgement number and whose sequence numbers follow one another; all of it exactly when the link lasts. |
| TcpStream.WriterAlone | net/tcp.c:88-96 | The interleaved statements of the writer, left alone, add up to what RxWrite does. |
| TcpStream.AcceptedContinues | net/tcp.c:148-148 | With a stream under 2^32 bytes, the segment that is accepted continues it where the receiver stands. |
| TcpStream.ArriveKeeps | net/tcp.c:121-205 | No segment the network delivers, in whatever order or number, breaks the invariant. |
| TcpStream.MoveKeeps | net/tcp.c:94-94 | The moment the head moves, one more byte of the stream is stored. |
| TcpStream.ReadKeeps | net/tcp.c:320-323 | No statement of the reader changes what is delivered and stored together. |
| TcpStream.RunInv | net/tcp.c:83-326 | The invariant holds at every statement of every run. |
| TcpStream.StreamSafety | net/tcp.c:83-326 | At every statement of every interleaving over any network: what was delivered and what the ring holds is the stream up to the byte being written, if and only if nothing was dropped; in ESTABLISHED the acknowledgement number stands at its end plus what was dropped. |
| TcpStream.LosslessIff | net/tcp.c:88-96 | Nothing is lost if and only if the test of tcp_rx_write never finds the ring full with bytes of the segment left. |
| TcpStream.NothingDropped | net/tcp.c:88-96 | Nothing is dropped when each accepted segment fits the free space it meets, whatever the reader does. |
| TcpStream.FinAcksAll | net/tcp.c:153-164 | A FIN out of order acknowledges the whole stream although it has arrived only if the receiver already stood at its end. |
| TcpStream.FinInOrder | net/tcp.c:148-164 | A FIN on an accepted segment ends a stream that has arrived in full exactly when nothing was dropped. |
| TcpStream.OpensIff | net/tcp.c:120-134 | A segment opens the connection if and only if it is a SYN that acknowledges the SYN of this connection, whatever SYNs of other connections the network delivers. |
| TcpStream.OpenedBy | net/tcp.c:120-134 | On every run a connection that has been open has seen such a SYN while it waited for it. |
| TcpStream.WholeConnection | net/tcp.c:120-205 | On every run on which the answer to the SYN, the whole stream in order in any split with its FIN, and an acknowledgement arrive, whatever the reader does: the connection ends CLOSED, and if each segment fits the ring all of the stream is delivered once the reader has emptied it. |
| TcpStream.ActiveClose | net/tcp.c:175-196 | On every run after the own FIN: when it is acknowledged and the peer's FIN arrives, together or one after the other, the connection is in TIME_WAIT and acknowledges that FIN. |
| TcpStream.TwoMachines | net/tcp.c:275-346 | Two machines: what one sends with tcp_send and ends with tcp_close, the other delivers. |
| TcpStream.SentInTurn | net/tcp.c:275-346 | The segments of tcp_send and the FIN of tcp_close are a stream in order. |
| TcpStream.SentIsGenuine | net/tcp.c:275-302 | Each segment tcp_send emits on one machine is what the receiver on another takes for its peer's. |
| JsonScan.FindMatchingClose | claude/json.c:218-237 | The loop stops where the recursive scan stops, on every text. |
| JsonScan.SkipRaw | claude/json.c:222-230 | The scanner and the JSON grammar agree on where any string ends. |
| JsonScan.ScanValue | claude/json.c:218-237 | Any JSON value leaves the depth as it was. |
| JsonScan.MatchingClose | claude/json.c:218-237 | For every object or array, in any spelling and with anything after it, the scan stops on its own last character. |
| JsonEscape.EscapeString | claude/json.c:51-70 | The output is the escape of the first k characters, never cut inside an escape, where k is fixed by the room; all of them when the escape fits. |
| JsonEscape.EscapeIsJson | claude/json.c:51-70 | What is written is a JSON string that means the input without the dropped control characters. |
| JsonEscape.ExtractJsonString | claude/json.c:186-209 | The output is what the string contents decode to, cut to the buffer. |
| JsonEscape.ExtractMeans | claude/json.c:186-209 | The decoding is the meaning of the JSON string if and only if it contains no \b, \f or \u escape. |
| JsonEscape.ExtractEscape | claude/json.c:51-70 | Extracting what was escaped gives back the input without the dropped control characters. |
| JsonEscape.OutMeaning | claude/json.c:191-204 | Unit by unit: decoded and meant text agree exactly on the escapes the reader knows. |
| ToolCalls.Find | claude/json.c:260-260 | The first place at which a pattern stands, or the end. |
| ToolCalls.FindJsonString | claude/json.c:165-183 | The loop finds what the recursive key search finds. |
| ToolCalls.FindKeyIff | claude/json.c:165-183 | What the key search does on any text: it finds a value if and only if some key at an opening quote has a string behind it, and it steps over the NUL if and only if none has and the text ends behind such a key or in an opening quote. Which quotes open is told from the text before them. |
| ToolCalls.FindKeyFirst | claude/json.c:165-183 | The value it finds is that of the first key that has one. |
| ToolCalls.OddQuotes | claude/json.c:165-183 | In a text that does not end in white space or a colon it steps over the NUL if and only if it finds no value and the text ends in an odd number of quotes. |
| ToolCalls.SomeOverrun | claude/json.c:165-183 | Two texts on which it steps over the NUL: a quote that nothing follows, and a key that only a colon follows. |
| ToolCalls.NoOverrun | claude/json.c:165-183 | For any key, with quotes in it or not: it never does in a text that does not end in a quote, a colon or white space. |
| ToolCalls.SkipSpace | claude/json.c:212-215 | The first place that is no white space. |
| ToolCalls.SkipWsStops | claude/json.c:212-215 | It goes past white space and stops in front of anything else. |
| ToolCalls.AfterColonAt | claude/json.c:265-267 | A value is reached over any white space and at most one colon. |
| ToolCalls.BackStops | claude/json.c:272-273 | Between the brace the search back stops at and the type there is no other. |
| ToolCalls.ParseToolCalls | claude/json.c:252-318 | The loop fills the array with exactly the calls of the specification, as long as it does not read behind the NUL, and reports exactly when it does; fields that are not found and the rest of the array keep what the caller had there. |
| ToolCalls.PastEndIff | claude/json.c:252-318 | The reading runs over the NUL, on any text, if and only if an object taken for a tool call is not closed or its key search steps over the NUL. |
| ToolCalls.CheckToolUse | claude/json.c:264-269 | Whether the type opens a tool call. |
| ToolCalls.SearchBack | claude/json.c:272-273 | The nearest opening brace before the type. |
| ToolCalls.FillCall | claude/json.c:278-306 | Id, name and input of one call, each cut to its buffer. |
| ToolCalls.CopyField | claude/json.c:279-288 | A string field through its 64-byte buffer. |
| ToolCalls.CopyInput | claude/json.c:291-306 | The input object by brace matching, cut to 4095 bytes. |
| Responses.QuotedEnds | claude/json.c:260-260 | Inside any string literal a quoted word can only stand at its end. |
| Responses.PassString | claude/json.c:168-181 | The key search passes over any string literal that is not the key. |
| Responses.FindId | claude/json.c:279-279 | The id key is found, whatever its value is. |
| Responses.FindName | claude/json.c:285-285 | The name key is found, whatever id and name are. |
| Responses.FirstInput | claude/json.c:291-292 | The first "input" of a block is its key, unless the id or the name ends like it. |
| Responses.BlockIsJson | claude/json.c:269-276 | A block of the response is a JSON object. |
| Responses.TextQuiet | claude/json.c:258-314 | A text block opens no tool call, whatever its text. |
| Responses.ToolParsed | claude/json.c:269-310 | A tool_use block is read as its call and parsing goes on right behind it. |
| Responses.ToolCallsExact | claude/json.c:252-318 | For every list of text and tool_use blocks the parser returns exactly the tool_use blocks, in order, up to the limit, whatever texts, ids, names and nested inputs contain; the input of a call is missing exactly when its id or name looks like the key "input". |
| CutResponses.CutResponse | claude/json.c:252-318 | A response cut after any number of bytes, as a full body buffer cuts it: the parser runs over the NUL if and only if the cut lies in one of the first tool_use blocks up to the limit, behind the word that says so; otherwise it returns exactly the tool_use blocks that are there in full. |
| CutResponses.ScanCut | claude/json.c:218-237 | On a text that is cut the scan stops where it did, or at the cut. |
| Responses.PlainClash | claude/json.c:291-292 | For an id or name of plain characters, looking like the key means being it. |
| ContentArray.FindContentArray | claude/json.c:323-338 | The first "content" key with an array as its value. |
| ContentArray.ExtractContentArray | claude/json.c:340-350 | -1 without such a key; else the text up to the matching bracket, cut to the buffer. |
| ContentArray.ContentExact | claude/json.c:340-350 | The first content array of any text, in any spelling, is measured exactly, so it is copied whole when it fits. |
| ContentArray.BlocksAreArray | claude/json.c:340-350 | That array is the list of blocks of the response. |
| BspGeometry.SideAlong | tools/bspbuild.py:117-119 | Sides vary evenly along a segment. |
| BspGeometry.CrossingOnLine | tools/bspbuild.py:154-160 | The fraction of a spanning seg lies strictly inside it, and its point on the line. |
| BspGeometry.SameSides | tools/bspbuild.py:333-339 | A piece of a line has the same two sides as the line. |
| BspGeometry.HalvesAreParts | tools/bspbuild.py:174-177 | Both halves of a piece are pieces of the same line, in the same direction. |
| BspBuild.ClassSides | tools/bspbuild.py:121-144 | The class of a seg says on which closed side of the line it lies. |
| BspBuild.CutOk | tools/bspbuild.py:146-183 | A spanning seg is replaced by two halves of it, one on each side, with a new vertex on the line. |
| BspBuild.Builder.ClassifySeg | tools/bspbuild.py:121-144 | The class says on which closed sides of the line the whole seg lies: right, left, both when it is on the line, neither when it spans it. |
| BspBuild.TrulyConvexIff | tools/bspbuild.py:283-310 | Segs lie all on one side of each of their lines if and only if none spans the line of another and none has others on both sides. |
| BspBuild.LeafConvexIff | tools/bspbuild.py:283-310 | Segs that pass the convexity test are convex if and only if none spans the line of another and, when there are at most three, none has others on both sides; convex segs always pass. |
| BspBuild.CrossingLeaf | tools/bspbuild.py:283-310 | Two crossing lines with their backs pass the test, and they are not convex. |
| BspTree.ChainRuns | tools/bspbuild.py:146-183 | A chain of pieces of a seg runs along it: the pieces are its consecutive stretches, from one end to the other. |
| BspBuild.Builder.SplitSeg | tools/bspbuild.py:146-183 | The new vertex is the crossing point, and the halves run from end to vertex and vertex to end. |
| BspBuild.Builder.IsConvex | tools/bspbuild.py:283-310 | True exactly for at most three segs, or when no seg has others on both sides. |
| BspBuild.Builder.PickPartition | tools/bspbuild.py:245-281 | The first seg of the list with the least score. |
| BspBuild.Builder.MakeSubsector | tools/bspbuild.py:312-322 | A leaf that holds exactly its segs in their order, in the next range of the final segs, with the sector of the first. |
| BspBuild.Builder.Divide | tools/bspbuild.py:341-367 | Each seg goes right, goes left or is cut, and lies where it went; only segs that lie on neither side are cut. |
| BspDivide.PartsRight | tools/bspbuild.py:341-367 | Both parts lie on their own side of the partition line, and on no side of any line where the whole did not lie. |
| BspDivide.CutsShrink | tools/bspbuild.py:324-377 | Termination: for both parts fewer oriented lines still have a seg partly on their left. |
| BspJoin.MergeChains | tools/bspbuild.py:341-377 | The chains of the two parts make up chains for the whole, with no piece lost or used twice. |
| BspJoin.LeafBuilt | tools/bspbuild.py:312-322 | What a leaf promises. |
| BspJoin.NodeBuilt | tools/bspbuild.py:375-397 | Two built subtrees make a built parent. |
| BspBuild.Builder.BuildNode | tools/bspbuild.py:324-397 | Terminates, and builds the tree of its segs: a leaf exactly when they pass the convexity test or nothing lies left of the first seg with the least score, and else a node on the line of that seg with the trees of what goes right and left. Chains, leaf ranges, numbering and separation hold. |
| BspBuild.LeavesStand | tools/bspbuild.py:324-377 | Every subsector of the tree has, by its final segs alone, cause to be a leaf. |
| BspBuild.LeftsEmpty | tools/bspbuild.py:369-373 | The left part is empty if and only if no seg lies left of the line, not even in part. |
| BspBuild.Builder.GenerateSegs | tools/bspbuild.py:223-243 | A front seg for every linedef and a back seg for every two-sided one, each a piece of its own line. |
| BspBuild.Builder.Build | tools/bspbuild.py:214-221 | The tree of all generated segs is built: a node wherever the segs give no cause for a leaf, and every subsector gives cause by its final segs. Every generated seg ends as a chain of pieces that are its consecutive stretches from its one end to its other, each final seg is in exactly one place of one chain, the subsector ranges tile the final segs, subsectors and nodes are numbered in order, and every node separates its two sides. |
| BspTree.ChildrenBelow | tools/bspbuild.py:375-397 | Every child node has a number below its parent. |
| BspTraverse.TraverseNode | engine3d/bsp.c:112-143 | On every level on which the recursion ends: a subsector is visited when it is there, a number that stands for nothing is passed over, and at a node the side the test names comes first. |
| BspTraverse.Traverse | engine3d/bsp.c:145-155 | Without nodes the subsectors in their order, else the visits from the root. |
| BspTraverse.DownwardEnds | engine3d/bsp.c:112-143 | The recursion ends from every node of a level whose child nodes have numbers below their parents, as the builder numbers them. |
| BspTraverse.ShapeVisits | engine3d/bsp.c:112-143 | On a tree of the builder's shape it ends, and visits in the order of the tree. |
| BspTraverse.EachOnce | engine3d/bsp.c:112-143 | The visit order is a permutation of the subsectors of the tree. |
| BspTraverse.NearFirst | engine3d/bsp.c:128-142 | At each node all subsectors on the named side come before all on the other. |
| BspTraverse.CameraSide | engine3d/bsp.c:131-134 | The side test is exact while neither coordinate difference wraps. |
| BspTraverse.CameraSideIff | engine3d/bsp.c:131-134 | For a camera and all lines through a point the test is exact if and only if neither coordinate difference wraps. |
| BspTraverse.FarCamera | engine3d/bsp.c:131-132 | Further away the difference wraps: a camera for which the test names the wrong side. |
| BspTraverse.BuiltTraverses | engine3d/bsp.c:112-155 | A tree as the builder makes it, with at most 0x8000 nodes and subsectors, is traversed near side first with every subsector once, from every camera. |
| BspTraverse.BuiltVisits | engine3d/bsp.c:112-155 | That order is what bsp_traverse visits. |
| BspTraverse.ExactSide | tools/bspbuild.py:458-462 | On a line that fits 16.16 fixed point the written node has the sides of the line itself. |
| BspTraverse.RoundedSide | tools/bspbuild.py:458-462 | On a line that 16.16 rounds, the written node has the true side of every camera whose distance to the line, times the length of its direction, is at least the sum of its offsets and the direction in units of the last place. |
| BspTraverse.CloseCamera | tools/bspbuild.py:458-462 | A camera half a unit from its line that the written node has on the wrong side. |
| BspTraverse.NearSideFirst | engine3d/bsp.c:128-142 | At each node whose line is exact in fixed point or clear of the camera, and near enough for no difference to wrap, all subsectors on the closed side of the line where the camera is are visited before all that lie on the other. |
| Checksum.FoldSum | net/ipv4.c:38-40 | Folding ends, on the one's complement sum. |
| Checksum.AddWords | net/ipv4.c:72-79 | For up to 65535 bytes the 32-bit sum does not overflow. |
| Checksum.IpChecksum | net/ipv4.c:24-43 | The complement of the folded sum of the words. |
| Checksum.TcpUdpChecksum | net/ipv4.c:45-86 | The checksum of pseudo-header and data together. |
| Checksum.OrdersAgree | net/ipv4.c:28-35 | Sums in the two byte orders agree up to a swap of bytes. |
| Checksum.SameBytes | net/ipv4.c:24-43 | The little-endian computation stores the same two bytes as the big-endian definition. |
| Checksum.Verifies | net/ipv4.c:102-107 | With the checksum put in its zeroed field, any data checks to 0 in either byte order. |
| Checksum.SegmentVerifies | net/tcp.c:49-61 | The same for a segment below its pseudo-header. |
| Checksum.BuildHeader | net/ipv4.c:93-107 | The header that is built verifies, and carries the length, identification, protocol and addresses it was built for. |
| Checksum.HeaderFields | net/ipv4.c:93-104 | What is read back from the header: version, length, identification, don't fragment, time to live, protocol, checksum and both addresses. |
| Checksum.PseudoFields | net/ipv4.c:52-68 | The pseudo-header holds both addresses, a zero byte, the protocol and the length. |
| Dns.EncodeName | net/dns.c:51-76 | The loop writes what the recursive encoding says. |
| Dns.EncodeIsWire | net/dns.c:51-76 | A hostname of labels of 1 to 63 bytes is encoded as that name on the wire. |
| Dns.WireRoundTrip | net/dns.c:51-76 | A name on the wire gives back its labels. |
| Dns.NameSkipped | net/dns.c:114-134 | In a question every form of name is passed over just behind it, in an answer every form but one: labels that end in a pointer, where the handler goes at least 191 bytes too far. |
| Dns.JointAnswerLost | net/dns.c:129-141 | So in a datagram that ends soon enough an answer under such a name is lost, whatever it holds. |
| Dns.OwnAnswersOnly | net/dns.c:87-104 | A datagram counts as an answer if and only if it carries the id of the query, and gives no address with an error code or without answers. |
| Dns.AddressInside | net/dns.c:127-148 | On any bytes: an address that is found is the data of a record of type A and length 4 inside the datagram. |
| Dns.QuestionsSkipped | net/dns.c:112-124 | The question skip lands just past the question section. |
| Dns.AddressFound | net/dns.c:127-168 | The answer loop finds the first A record of any list of records. |
| Dns.ResponseRead | net/dns.c:79-171 | For every well-formed response with the right id and no error code the result is the address of the first A record, or none. |
| Dns.Resolver.Handle | net/dns.c:79-171 | resolved_ip and the flag change exactly as the response says; a datagram with another id changes neither, one with an error code never the address. |
| Dns.Resolver.SkipQuestions | net/dns.c:112-124 | The question loop ends where the specification says, on any bytes. |
| Dns.Resolver.SearchAnswers | net/dns.c:127-168 | The answer loop finds what the specification finds, on any bytes. |
| Chunked.ParseSize | net/https.c:166-173 | The size loop: where the line ends, and its digits modulo 2^32. |
| Chunked.Decode | net/https.c:160-192 | Wherever the loop ends, it leaves the specified body, never more than 4095 bytes. |
| Chunked.LoopsIff | net/https.c:164-191 | The loop goes on for ever if and only if its cursor comes back to a place where it was. |
| Chunked.LoopWraps | net/https.c:187-190 | A loop that does not end comes to a turn whose chunk ends at the last address of the address space or past it. |
| Chunked.TurnForward | net/https.c:187-190 | Every other turn moves the cursor on. |
| Chunked.LastAddress | net/https.c:187-190 | From a chunk that ends at the last address of all the skip of the line end wraps, and the cursor stands at 1. |
| Chunked.Stuck | net/https.c:187-190 | A body, at the end of any memory, on which every turn brings the cursor back to where it was: the loop never ends. |
| Chunked.StuckAtOne | net/https.c:187-190 | A memory on which the skip of the line end alone wraps: from address 5 the cursor goes to address 1 and stays there for ever. |
| Chunked.ChunkTurn | net/https.c:164-191 | One chunk moves the cursor just past it and adds its data as far as it fits. |
| Chunked.CopiedWhole | net/https.c:179-186 | Of a chunk as much is copied as the buffer has room for, if all of that has arrived, and else nothing. |
| Chunked.DecodesAll | net/https.c:156-192 | Every fully received encoding without extensions ends and yields the joined data, cut to 4095 bytes. |
| Chunked.SplitIndependent | net/https.c:156-192 | How the body was split into chunks, and where it lies in memory, does not matter. |
| Raster.Line | gui/fb.c:303-324 | The endless loop ends at (x1, y1) after exactly as many steps as the longer of the two distances; every pixel is exact in the longer direction and within half a pixel of the line in the other; nothing overflows. |
| Raster.LineStep | gui/fb.c:320-322 | One turn keeps within half a pixel. |
| Raster.Circle | gui/fb.c:326-351 | Each row of the octant has one pixel, and with it its seven images across both axes and the diagonal; for every plotted pixel x*x + y*y differs from r*r by at most x. |
| Raster.CircleStep | gui/fb.c:343-349 | The decision variable keeps the bound. |

## Left out

- ChaosFs.ChaosFs.Write: with no room the source can fail after the table in memory already shows the file; then only the new memory state is stated, not the drive.
- ChaosFs.ChaosFs.Mount: a superblock with more than 256 table entries, which would overrun the table, is not asked for.
- ChaosFs.ChaosFs.Sync: a drive fails only past its end; transient ATA errors are not modelled.
- ChaosRun.Run: paths of 1 to 107 bytes, sizes that round up to blocks within 32 bits, and enough blocks; the source checks none of them. Names stored without a NUL by another tool are not modelled.
- ChaosCrash.CrashPlace: a crash falls between sector writes; sectors are written atomically.
- MkChaosFs.ImageFile.Add: paths are ASCII of 1 to 107 bytes; the tool's mkdir, which can store a name twice, and its list command are not modelled.
- Heap.KernelHeap.Kmalloc: memory is words, so heap start and size are multiples of 4.
- Heap.KernelHeap.Kfree: only for null, blocks handed out and pointers that it reports as outside the heap; a block on a slab page beyond the 128 tracked ones is left allocated.
- LuaRealloc.Realloc: where the copy leaves the new block the model stops before it and says no more. That the result then has less room than was asked for, as for every size within 15 of 2^32, is stated.
- Machine.Kernel.Run: a task writes only to blocks it holds, and asks for sizes whose rounding does not wrap; blocks handed out by other callers of the frame allocator are not part of a run.
- Pmm.FrameAllocator.Init: the memory map is a parameter, and total memory starts at 0.
- Paging.Vmm.MapFramebuffer: ranges on which the second loop ends (`Paging.LoopEndsIff`); on the others, which start inside a page and end further inside the last one, it goes round for ever.
- Paging.Vmm.UnmapPage: not for a slot that holds a 4 MB page, whose frame the source would take for a table.
- Paging.Vmm.MapPage: flags below 4096. The translation look-aside buffer and control registers are not modelled.
- Scheduler.BoundedWaiting: calls of schedule, sleep and create are single steps, not interrupted by another; the stacks and register frames of tasks are not modelled.
- Scheduler.Scheduler.Create: whether the stack could be allocated is a parameter.
- Tcp.Connection.Send: how many segments the link takes is a parameter; waits, retransmission by timers and the remote window are not modelled.
- TcpStream.StreamSafety: one connection with one receiving task; a new connection in the same slot meanwhile is not modelled.
- JsonScan.MatchingClose: texts are bytes without NUL; the key searches of the other responses and the request builders are not modelled.
- ToolCalls.ParseToolCalls: where the source reads behind the NUL (`ToolCalls.PastEndIff`, `CutResponses.CutResponse`) it depends on what lies there; the model stops and says nothing of the array.
- Responses.ToolCallsExact: blocks as the API prints them (type, id, name, input; no white space between them); the text around the array must open no tool call itself.
- BspBuild.Builder.Build: exact reals stand for floats, so EPSILON is 0 and no vertex is merged; texture offsets and bounding boxes are not modelled.
- BspTraverse.Traverse: asks for a depth at which the recursion ends; on a level whose nodes form a cycle the source does not end.
- BspTraverse.NearSideFirst: for a camera closer to a rounded line than `BspTraverse.RoundedSide` allows the side is not stated (`BspTraverse.CloseCamera`); nor for a line that 16.16 clamps.
- Chunked.Decode: asks for a number of turns within which the loop ends (`Chunked.LoopsIff` says when there is none); memory below the body that a wrapped cursor reads is taken not to change while decoding. Chunk extensions are not modelled.
- Dns.ResponseRead: the names of answers are labels or one pointer, as the handler loses its place behind any other (`Dns.NameSkipped`, `Dns.JointAnswerLost`); timeouts of the resolver are not modelled.
- Checksum.BuildHeader: the payload copy and the link below are not modelled.
- Raster.Line: for coordinates less than 2^29 apart, where no sum overflows; clipping to the screen is not modelled.
- The superblock struct is 504 bytes; it is modelled as the whole sector that is written from it.
- chaosfs_list, kmalloc_aligned, the resolver's query packet, UDP, ARP, TLS, drivers, the GUI, Lua, audio and the shell.
