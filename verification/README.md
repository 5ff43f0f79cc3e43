# EndrOS in Dafny

A model of the kernel of EndrOS, a small RISC-V operating system in C, and of its image builder,
with proofs of what the code keeps and promises. Code that changes state is modelled by classes
whose methods change fields in the same steps; specification functions and lemmas on values carry
the arguments. Where the code does not meet a property, the code is kept as it is, a member shows
the input, and another says exactly when the property holds.

| files | subject |
|---|---|
| `Paging`, `KernelTable` | Sv39 page tables; mapping through the recursive self-map |
| `PageRuns`, `Allocator` | free lists of page runs; `dmalloc`, `kalloc` and who has which frame |
| `UserTable`, `AddressSpaces`, `SpaceCopy`, `SpaceFree`, `NewSpaces` | user page tables with their shadow of reference arrays; copying and freeing whole spaces |
| `ProcessSpaces`, `ProgramLoad`, `MemoryReads` | the memory of all processes; loading programs; what processes read |
| `UserBytes`, `ExecStack`, `Execve` | copies between kernel and user memory; the argument stack |
| `ProcessTable`, `OpenFlags`, `Descriptors`, `KernelSteps`, `CallResults`, `Kernel` | scheduling, waiting, open files; every run of the system calls and what they return to whom |
| `DescriptorChains`, `QueueState`, `QueueSteps`, `Counters`, `Virtqueue`, `QueueRuns` | the split virtqueue of VirtIO 1.1, with the device completing in any order; every run of driver and device |
| `Chunks`, `BlockCache` | the write-back block cache against a flat byte array |
| `Bitmap`, `FileBlocks`, `FileStore`, `BlockCount`, `ImageBitmap` | files, their blocks and the bitmap; block counts of kernel and image builder |
| `FileCache` | files through the cache, down to the disk |
| `Limits` | sizes that several parts share |
| `DeviceTree`, `BoardTree` | the flattened devicetree parser against trees; the block of a board |

`dafny verify dfyconfig.toml` checks everything.

Reading the model:

- A panic of the kernel is a result `None` or `false`. `dmalloc` and `kalloc` say exactly when it happens, the members above them that it happens only with no frame left (`Exhausted`); nothing else is claimed of the state after it.
- Pages and frames are numbers. A kernel page is its low 27 bits, the part Sv39 translates.
- Ghost maps say who owns what (`own`, `kown`, `use`, `owner`, `place`); a thing with one entry has one owner, and disjointness follows.
- `repaired` of the block cache stands for two changes: an evicted buffer is relabelled, and a whole-block write makes its buffer valid. `false` is the code as it is.
- The choices of the environment (what a path leads to, which request the device completes, where the allocator puts a new file) are parameters.

## Model

| member | source | states |
|---|---|---|
| `Paging.IndicesOfJoin` | kernel/pagetable.h:14 | the three 9-bit indices of a page number are those it was joined from |
| `Paging.JoinOfIndices` | kernel/pagetable.h:14 | a 27-bit page number is the join of its three indices, each below 512, the first of weight 2^18 and the second of weight 2^9 |
| `KernelTable.WalkIsLast` | kernel/pagetable.c:369-409 | in a well-formed table the Sv39 walk (section 4.4.1 of the RISC-V Privileged Architecture, 20211203) is the leaf in the last-level table the indices lead to |
| `KernelTable.ThroughSelfMap` | kernel/pagetable.c:476-480 | the two root entries that point to the root make page 1 the root, page VPN(2) a middle table opened for writing, and page VPN(2):VPN(1) a last-level table opened for writing |
| `KernelTable.OpenStoreClose` | kernel/pagetable.c:374-408 | opening an interior entry for writing, storing through it and closing it changes only the stored entry |
| `KernelTable.MappedTranslates` | kernel/pagetable.c:369-409 | after mapping, the page translates to the given frame and flags, every other managed page translates as before, interior entries are pointer entries and every new table has its own place |
| `KernelTable.UnmapMapIdentity` | kernel/pagetable.c:411-440 | unmapping a mapped page makes its walk fail, and mapping the frame it had gives back the same memory |
| `KernelTable.MappedKeepsTables` | kernel/pagetable.c:369-409 | mapping a page removes no table on the way to any other page |
| `KernelTable.UnmappedKeepsTables` | kernel/pagetable.c:411-440 | nor does unmapping one |
| `KernelTable.PathThere` | kernel/pagetable.c:369-409 | where the last-level table is there, mapping takes no frame |
| `KernelTable.KernelSpace.constructor` | kernel/pagetable.c:472-480 | a zeroed root with its two self-maps: no managed page is mapped |
| `KernelTable.KernelSpace.Palloc` | kernel/pagetable.c:44-50 | the next frame, or a panic exactly if there is none |
| `KernelTable.KernelSpace.OpenMiddle` | kernel/pagetable.c:371-385 | the middle table, found or newly allocated and zeroed, ends writable through the self-map |
| `KernelTable.KernelSpace.OpenLast` | kernel/pagetable.c:387-402 | the last-level table likewise, with the entry above it closed again |
| `KernelTable.KernelSpace.Ptmap` | kernel/pagetable.c:369-409 | through the self-map, memory changes exactly as by the physical version; succeeds exactly if the frames suffice; the page gets its translation and the others keep theirs |
| `KernelTable.KernelSpace.Ptunmap` | kernel/pagetable.c:411-440 | panics exactly if a table on the way is missing; otherwise returns the frame, the page is unmapped and the others are kept |
| `KernelTable.KernelSpace.PtmapPhysical` | kernel/pagetable.c:442-457 | the same memory change as `Ptmap`, by physical addresses |
| `PageRuns.OneRunPerPage` | kernel/pagetable.c:82-196 | live runs and free nodes partition the pages below the break: each page is in exactly one of them |
| `PageRuns.Region.constructor` | kernel/pagetable.c:27-30 | a range with nothing live and nothing free |
| `PageRuns.Region.Cut` | kernel/pagetable.c:87-100 | a larger node gives its front pages; its rest stays at the same place of the list with the frames that follow, and no other node changes |
| `PageRuns.Region.Unlink` | kernel/pagetable.c:102-112 | a node of the right size leaves the list, the others stay in order |
| `PageRuns.Region.Take` | kernel/pagetable.c:85-115 | first fit: the search ends, the first node of the list that is large enough gives its front, every other node stays, and none is found exactly if there is none |
| `PageRuns.Region.Give` | kernel/pagetable.c:139-146 | a live run becomes the first node, before the list as it was; frames stay with their pages |
| `PageRuns.Region.Extend` | kernel/pagetable.c:118-121 | the break moves up by one live run |
| `Allocator.ClaimFramed` | kernel/pagetable.c:125-133 | frames claimed before the mapping loop stay apart from the table frames that loop takes |
| `Allocator.PageAllocator.constructor` | kernel/pagetable.c:27-33 | after the kernel's own mappings every frame taken is a table frame |
| `Allocator.PageAllocator.NoFrameTwice` | kernel/pagetable.c:35-186 | in every state reached by matched allocations and frees, no frame is behind two pages and none is also a page-table frame |
| `Allocator.PageAllocator.MapPage` | kernel/pagetable.c:53-71 | mapping one page keeps every other translation and counts new tables as table frames; it fails exactly if the tables it needs do not fit |
| `Allocator.PageAllocator.PallocPtr` | kernel/pagetable.c:53-71 | the next frame mapped at the page; a panic exactly if that frame and the tables it needs are not left |
| `Allocator.PageAllocator.MapRun` | kernel/pagetable.c:131-133 | page vpn+i is mapped to frame pfn+i for the whole run, others kept; fails exactly if the tables of all these pages do not fit |
| `Allocator.PageAllocator.BackRun` | kernel/pagetable.c:122-136 | the new pages get frames, one by `palloc_ptr`, several as one contiguous run; fails exactly if frames and tables do not fit |
| `Allocator.PageAllocator.DmallocGrow` | kernel/pagetable.c:118-136 | a run at the break, physically contiguous and mapped, nothing else moved; a panic exactly if its frames and the tables they need exceed what is left |
| `Allocator.PageAllocator.Dmalloc` | kernel/pagetable.c:82-137 | if a node of the list is large enough, the first such node gives its pages and frames, and break, frame counter and page table stay; otherwise the run is at the break with the next frames; a panic exactly if no node is large enough and fewer frames than needed are left; all other runs and frames stay |
| `Allocator.PageAllocator.Dmafree` | kernel/pagetable.c:139-146 | exactly that run stops being live and is the first of the list |
| `Allocator.PageAllocator.FreeThenAlloc` | kernel/pagetable.c:82-146 | `dmafree` and then `dmalloc` of as many pages gives the same pages and frames back, takes no frame, cannot panic and leaves the list as it was |
| `Allocator.PageAllocator.BackPage` | kernel/pagetable.c:179-183 | one more page of the `kalloc` range gets the next frame; fails exactly if frame and tables do not fit |
| `Allocator.PageAllocator.BackPages` | kernel/pagetable.c:179-183 | the loop gives each page of the run its own frame; fails exactly if they do not all fit |
| `Allocator.PageAllocator.KallocGrow` | kernel/pagetable.c:178-185 | a run at the break of the `kalloc` range, every page mapped; a panic exactly if frames and tables do not fit |
| `Allocator.PageAllocator.Kalloc` | kernel/pagetable.c:149-186 | NULL and no change for size 0; otherwise a run of the rounded-up size, from the first node large enough if there is one, without taking a frame, else at the break; a panic exactly if there is no such node and too few frames are left |
| `Allocator.PageAllocator.Kfree` | kernel/pagetable.c:188-196 | nothing for size 0, otherwise exactly that run stops being live and is the first of the list |
| `Allocator.PageAllocator.Unmap` | kernel/process.c:86-90 | the first page of a live run is taken out of the page table and remembered with its frame |
| `Allocator.PageAllocator.Remap` | kernel/process.c:101-102 | a guard page gets its frame back; its tables are still there, so this takes no frame and cannot panic |
| `UserTable.WalksAgree` | kernel/pagetable.c:197-218 | hardware walk and shadow walk agree for every page number: where the shadow has a kernel page, the hardware leaf has that page's frame |
| `UserTable.AddMidTree` | kernel/pagetable.c:227-236 | a new middle table with its reference array keeps both walks in step |
| `UserTable.AddLowTree` | kernel/pagetable.c:241-249 | a new last-level table with its reference array keeps both walks in step |
| `UserTable.SetLeafTree` | kernel/pagetable.c:251-254 | storing a leaf and its kernel page keeps both walks in step and changes no other path |
| `UserTable.TreeKept` | kernel/pagetable.c:219-255 | a space depends only on its own tables and arrays |
| `AddressSpaces.UserMemory.constructor` | kernel/pagetable.c:82-196 | no address space, nothing owned |
| `AddressSpaces.UserMemory.NewPage` | kernel/pagetable.c:82-137 | a page for a user space: live, owned by nobody, its frame holds no table; a panic only with no frame left |
| `AddressSpaces.UserMemory.NewArray` | kernel/pagetable.c:149-186 | a reference array: live, owned by nobody; a panic only with no frame left |
| `AddressSpaces.UserMemory.NewTable` | kernel/pagetable.c:228-231 | a zeroed table page and its reference array; a panic only with no frame left |
| `AddressSpaces.UserMemory.NewMid` | kernel/pagetable.c:227-236 | a missing middle table appears; no translation of any space changes; a panic only with no frame left |
| `AddressSpaces.UserMemory.NewLow` | kernel/pagetable.c:241-249 | a missing last-level table appears; no translation of any space changes; a panic only with no frame left |
| `AddressSpaces.UserMemory.PutLeaf` | kernel/pagetable.c:251-254 | the page gets its leaf and kernel page; the page that had the place is owned no more |
| `AddressSpaces.UserMemory.EnsurePath` | kernel/pagetable.c:224-249 | both tables on the way exist afterwards; a panic only with no frame left |
| `AddressSpaces.UserMemory.Uptmap` | kernel/pagetable.c:219-255 | `walkupt` gives the kernel page just passed and the hardware the frame and flags; every other page of this space, and every other space, keep both walks; a panic only with no frame left |
| `AddressSpaces.UserMemory.CopyBytes` | kernel/pagetable.c:362-363 | one page is copied through the kernel's mapping; no walk changes |
| `AddressSpaces.UserMemory.FillBytes` | kernel/process.c:60 | a page of bytes reaches the frame behind the kernel page; no walk changes |
| `SpaceCopy.CopyPage` | kernel/pagetable.c:353-363 | one page of the copy: new frame, same flags, same bytes; a panic only with no frame left |
| `SpaceCopy.CopyLow` | kernel/pagetable.c:340-364 | all pages below one last-level table are copied; a panic only with no frame left |
| `SpaceCopy.CopyMid` | kernel/pagetable.c:326-365 | all pages below one middle table are copied; a panic only with no frame left |
| `SpaceCopy.PtrefCopy` | kernel/pagetable.c:316-367 | every one of the 2^27 pages of the copy is mapped exactly where the source has a kernel page, with its flags and bytes, on a page that was not live before; the source and all other spaces are unchanged; a panic only with no frame left |
| `SpaceFree.RankInjective` | kernel/pagetable.c:285-314 | the order in which places are freed numbers every place once |
| `SpaceFree.GivePage` | kernel/pagetable.c:299-301 | one data page goes back |
| `SpaceFree.GiveTable` | kernel/pagetable.c:303-313 | one table and its reference array go back |
| `SpaceFree.FreeLow` | kernel/pagetable.c:296-305 | everything below a last-level table and the table itself go back |
| `SpaceFree.FreeMid` | kernel/pagetable.c:291-309 | everything below a middle table and the table itself go back |
| `SpaceFree.FreeBase` | kernel/pagetable.c:311-313 | the root table and its array go back last |
| `SpaceFree.PtrefFree` | kernel/pagetable.c:285-314 | exactly the pages, tables and arrays of the space go back, each once; all other allocations, spaces and the bytes of every page still live stay; it cannot panic |
| `NewSpaces.NewSpace` | kernel/sysproc.c:95-101 | an empty address space: a zeroed root and its array; a panic only with no frame left |
| `NewSpaces.NewStack` | kernel/sysproc.c:115-122 | a kernel stack of 256 pages and an unmapped guard page; a panic only with no frame left |
| `NewSpaces.FreeStack` | kernel/process.c:101-103 | the guard page is mapped again and the whole stack goes back; it cannot panic |
| `ProcessSpaces.ForkSpace` | kernel/sysproc.c:95-109 | a copy of the parent's space plus the trampoline; a panic only with no frame left |
| `ProcessSpaces.Processes.constructor` | kernel/process.c:15 | no slot is in use and nothing is owned |
| `ProcessSpaces.Processes.Fork` | kernel/sysproc.c:95-124 | the child's memory is a copy of the parent's; every other process keeps both walks of every page and the bytes behind them; the new allocations are exactly the child's; a panic only with no frame left |
| `ProcessSpaces.Processes.Free` | kernel/process.c:98-104 | exactly the slot's pages, tables, arrays and stack go back, every other process keeps its memory, and there is no panic |
| `ProcessSpaces.Processes.ForkReap` | kernel/sysproc.c:74-172 | forking a child and reaping it restores the set of live allocations; a panic only while forking, with no frame left |
| `ProcessSpaces.Processes.SlotsDisjoint` | kernel/sysproc.c:49-172 | two slots never own the same kernel page or the same frame |
| `ProcessSpaces.Processes.UnusedHasNone` | kernel/process.c:105-111 | an UNUSED slot owns no page |
| `ProcessSpaces.Processes.PagesApart` | kernel/sysproc.c:95-124 | a kernel page has at most one owning slot |
| `ProcessSpaces.Processes.FramesApart` | kernel/sysproc.c:95-124 | kernel pages of processes have different frames |
| `ProcessSpaces.Processes.UserFrame` | kernel/pagetable.c:316-367 | what a process can reach, the trampoline aside, is a data page of its own and never a page table |
| `ProcessSpaces.Processes.UserFramesApart` | kernel/sysproc.c:95-109 | two user pages share a frame only if both are the trampoline or they are the same page of the same process |
| `MemoryReads.ChildReads` | kernel/sysproc.c:95-109 | after a fork the child reads at every address below the trap frame what the parent reads |
| `MemoryReads.SameReads` | kernel/pagetable.c:197-366 | a process whose memory is kept reads what it read |
| `MemoryReads.UnseenStore` | kernel/pagetable.c:197-366 | what a process stores in a page of its own no other process reads |
| `ProcessSpaces.OthersSame` | kernel/sysproc.c:95-124 | what changes one space, and no bytes of other live pages, leaves the memory of every other process as it was |
| `ProcessSpaces.ForkedIsUser` | kernel/sysproc.c:106-130 | without the trap frame, whose words the kernel then sets, the child is a copy |
| `ProgramLoad.SharedPage` | kernel/process.c:56-62 | two segments of a program can share a page |
| `ProgramLoad.OverlapStep` | kernel/process.c:42-63 | a further segment shares a page exactly if one of its pages is already mapped |
| `ProgramLoad.MapNew` | kernel/process.c:57-61 | one page is allocated, filled and mapped; what was there before is no longer owned; no other page of the space and no page live before changes; a panic only with no frame left |
| `ProgramLoad.MapRange` | kernel/process.c:56-62 | the pages of one segment with their part of the file, or of the stack; a panic only with no frame left |
| `ProgramLoad.MapSegments` | kernel/process.c:41-63 | all segments with their parts of the file, and the highest page they reach; a panic only with no frame left |
| `ProgramLoad.StartSpace` | kernel/process.c:23-34 | an empty space with the trampoline; a panic only with no frame left |
| `ProgramLoad.ReadBuffer` | kernel/process.c:36-39 | the buffer for the program stays allocated; a panic only with no frame left |
| `ProgramLoad.LoadSpace` | kernel/process.c:23-81 | segments, stack and trap frame are mapped; a panic only with no frame left |
| `ProgramLoad.Load` | kernel/process.c:19-97 | the hardware finds, page by page: on a page of segments the permissions of the last one that touches it, with PTE_USER, and at each address the byte of the file that belongs there; above them an unmapped page and 256 pages the user may read and write; trap frame and trampoline for the kernel only; nothing else. Every page allocated is owned by the slot if and only if no two segments share a page; the program buffer stays live; every other process keeps both walks of every page and the bytes behind them; a panic only with no frame left |
| `ProgramLoad.Exec` | kernel/exec.c:80-84 | the old memory goes back and the program is loaded, with permissions and bytes; every other process keeps both walks of every page and the bytes behind them; a panic only with no frame left |
| `ProgramLoad.LastCounts` | kernel/process.c:47-61 | a page of several segments has the permissions of the last |
| `ProgramLoad.ImageByte` | kernel/process.c:54-60 | an address in a segment page reads the byte of the file at p_offset plus its distance from p_vaddr |
| `ProgramLoad.BeyondFileSize` | kernel/process.c:56-60 | an address behind the part of a segment that the file has reads zero exactly if the file has a zero there: nothing is cleared |
| `ProgramLoad.NotZeroed` | kernel/process.c:56-60 | a program whose bytes past p_filesz do not read zero |
| `ProgramLoad.SharedPageLeaks` | kernel/process.c:56-62 | two segments that share a page are loaded: a page stays live that nobody owns |
| `UserBytes.PokeWrote` | kernel/sysfile.c:24-29 | a store through the kernel's page is seen by the process at that address and nowhere else |
| `UserBytes.StoreBytes` | kernel/sysfile.c:27-28 | bytes go to the frame behind the kernel page |
| `UserBytes.CopyOut` | kernel/sysfile.c:13-32 | page by page, the process then reads exactly the buffer at that address; nothing else changes |
| `UserBytes.ScanStep` | kernel/sysfile.c:46-67 | the counter of consecutive zeros finds exactly the first aligned zero unit |
| `UserBytes.Fetch` | kernel/sysfile.c:39-68 | the bytes up to and with the first aligned zero unit, across pages; the copy stays inside the buffer of two pages exactly if they are at most 8192 |
| `ExecStack.NumLe` | kernel/exec.c:110 | a stored pointer reads back |
| `ExecStack.LowByteFirst` | kernel/exec.c:110 | the first byte of a stored word is its lowest |
| `ExecStack.FetchStrings` | kernel/exec.c:24-65 | the strings an array of pointers leads to, in order; every copy stays inside its buffer exactly if the array has at most 1023 pointers and each string at most 8191 characters |
| `ExecStack.StoreWord` | kernel/exec.c:104-117 | a pointer slot never crosses a page, and the process reads the pointer there |
| `ExecStack.PushStrings` | kernel/exec.c:103-138 | each slot points to its string, the array ends in NULL, nothing outside slots and strings changes |
| `ExecStack.StaysLaid` | kernel/exec.c:103-138 | the environment loop does not disturb the arguments |
| `ExecStack.RoundedLeast` | kernel/exec.c:85-88 | the size on the stack is the least multiple of 16 that is not below what pointers and strings need |
| `ExecStack.OneArgument` | kernel/exec.c:85-90 | one argument of seven characters and no environment take 32 bytes |
| `ExecStack.PushArgs` | kernel/exec.c:85-139 | the new stack pointer is 16-byte aligned; arguments, environment and strings lie between it and the old one without overlap, and leave less than 16 bytes over; nothing else changes |
| `Execve.StackSpans` | kernel/process.c:65-75 | every page of the new stack is one the kernel can write |
| `Execve.StackTopIs` | kernel/process.c:65-94 | the stack ends 0x100000 bytes above the page that follows the guard page |
| `Execve.ExecveArgs` | kernel/exec.c:13-139 | the arguments and environment the process reads through its new page table are those it had in its old address space; a copy runs past its kernel buffer exactly if the path, a string or an array of pointers does not fit two pages; the arguments run past the new stack exactly if they need more than its 256 pages; every other process keeps its memory; a panic only with no frame left; the program is as loaded |
| `Execve.FetchAll` | kernel/exec.c:17-65 | path, arguments and environment are copied, inside all buffers exactly if each fits its two pages |
| `Execve.PutArgs` | kernel/exec.c:85-139 | arguments and environment are on the stack of the loaded process; no other process changes |
| `Execve.BufferEdges` | kernel/exec.c:19-60 | 8191 characters and 1023 pointers fit, 8192 and 1024 do not, although the stack has room for them |
| `Execve.LongArgument` | kernel/exec.c:51-53 | every loaded process can put 8192 characters on its stack and pass them: the copy runs past the kernel buffer |
| `ProcessTable.Choose` | kernel/process.c:176-189 | the scan ends; it goes upward from the slot behind the running one and around, and takes the first READY slot, the running one last; none exactly if none is READY |
| `ProcessTable.DistanceUpward` | kernel/process.c:181 | slot r+1+d modulo 256 is looked at after exactly d others |
| `ProcessTable.LowerFirst` | kernel/process.c:181 | with slot 0 running and slots 1 and 2 READY, slot 1 runs next |
| `ProcessTable.Fair` | kernel/process.c:176-198 | a process that stays READY comes nearer at each call |
| `ProcessTable.FairWithin256` | kernel/process.c:176-198 | in every history of scheduler calls a process READY at 256 calls in a row is chosen by one of them |
| `ProcessTable.NoLostWakeUp` | kernel/sysproc.c:149-172 | a BLOCKED process that is not lost has exactly one live child flagged WAITED |
| `ProcessTable.FlaggedHasWaiter` | kernel/sysproc.c:58-62 | a live flagged child has a BLOCKED parent |
| `ProcessTable.ForkSane` | kernel/sysproc.c:89-93 | a fork changes nobody's waiting, and no process id is used twice |
| `ProcessTable.WakeSane` | kernel/sysproc.c:58-67 | the exit of a flagged child makes its parent READY with the exit status and changes nobody else's waiting |
| `ProcessTable.ZombieSane` | kernel/sysproc.c:68-70 | the exit of another process leaves a zombie and changes nobody's waiting |
| `ProcessTable.ReapSane` | kernel/sysproc.c:162-167 | reaping changes nobody's waiting |
| `ProcessTable.BlockSane` | kernel/sysproc.c:168-170 | waiting for a child that has not exited blocks the parent on it; waiting for a slot already reaped loses the parent |
| `ProcessTable.OneMatch` | kernel/sysproc.c:153-157 | the scan of `sys_waitpid` has at most one match |
| `ProcessTable.NobodyReady` | kernel/process.c:190-196 | if nobody is READY and nobody is lost but someone is BLOCKED, some process waits for one with a smaller process id |
| `Descriptors.SetHolders` | kernel/sysfile.c:138-153 | how one descriptor changes who points to a file |
| `Descriptors.OpenFiles.constructor` | kernel/process.c:144-145 | nothing is open |
| `Descriptors.OpenFiles.FreeFd` | kernel/sysfile.c:100-112 | the first free descriptor, none exactly if all are occupied |
| `Descriptors.OpenFiles.Open` | kernel/sysfile.c:91-136 | the counts stay equal to the number of descriptors if and only if the call succeeds, or no descriptor is free, or the file left in the descriptor is a device |
| `Descriptors.OpenFiles.Close` | kernel/sysfile.c:138-153 | one holder less; the file is freed exactly with the last one |
| `Descriptors.OpenFiles.Dup` | kernel/sysfile.c:255-272 | one holder more, in the first free descriptor |
| `Descriptors.OpenFiles.Dup3` | kernel/sysfile.c:274-289 | the counts stay right and no freed file is written if and only if there is nothing to duplicate, the descriptors differ, or the file is a device; a freed file is written exactly if the descriptor was its only holder |
| `OpenFlags.FlagsLeft` | kernel/sysfile.c:285 | the flags left were set and are in the mask; the empty mask leaves none and the full mask all |
| `OpenFlags.FlagsKept` | kernel/sysfile.c:285 | every flag that was set and is in the mask is left |
| `Descriptors.OpenFiles.Standard` | kernel/process.c:144-163 | three devices as standard streams; no count changes |
| `Descriptors.OpenFiles.CopyAll` | kernel/sysproc.c:133-144 | the child holds what the parent holds and every count is right again |
| `Descriptors.OpenFiles.CloseAll` | kernel/sysproc.c:52-57 | the process holds nothing, counts are right, files nobody holds are freed |
| `Descriptors.CountsDetermined` | kernel/sysfile.c:138-153 | the descriptors determine the counts |
| `Descriptors.FailedOpen` | kernel/sysfile.c:100-126 | opening a regular file as a directory leaves a descriptor that points to a file not allocated |
| `Descriptors.Dup3Self` | kernel/sysfile.c:274-289 | duplicating the only descriptor of a file onto itself frees the file, writes its count and closes the descriptor |
| `Kernel.Machine.constructor` | kernel/process.c:15-17 | no process, nothing open |
| `Kernel.Machine.Boot` | kernel/process.c:121-174 | the first process runs in slot 0 with its program in memory and three devices as standard streams; a panic only with no frame left |
| `Kernel.Machine.Trap` | kernel/ctrap.c:28-32 | the running process becomes READY |
| `Kernel.Machine.Schedule` | kernel/process.c:176-198 | the nearest READY process runs, or the machine halts exactly if there is none |
| `Kernel.Machine.Return` | kernel/ctrap.c:56-67 | the result reaches the register of the process that called |
| `Kernel.Machine.DoYield` | kernel/sysproc.c:9-13 | the nearest READY process runs, the caller being the last choice |
| `Kernel.Machine.FreeSlot` | kernel/sysproc.c:77-88 | the first UNUSED slot, none exactly if all are used |
| `Kernel.Machine.FindChild` | kernel/sysproc.c:152-161 | a slot with that process id whose parent is the caller |
| `Kernel.Machine.ForkInto` | kernel/sysproc.c:89-144 | table, memory and descriptors of the child together; its memory is a copy, trap frame aside; every other process keeps its memory; a panic only with no frame left |
| `Kernel.Machine.DoFork` | kernel/sysproc.c:74-147 | -1 exactly if all slots are used; otherwise a READY child with result 0, a copy of the memory, trap frame aside, and the descriptors, under a new process id; every other process keeps its memory; a panic only with no frame left |
| `Kernel.Machine.Unload` | kernel/process.c:105-111 | the memory of a TERMINATED process goes back and its slot becomes UNUSED; a panic exactly for any other status |
| `Kernel.Machine.Wake` | kernel/sysproc.c:58-67 | the waiting parent becomes READY with the exit status and the memory of the child goes back |
| `Kernel.Machine.Zombify` | kernel/sysproc.c:68-70 | otherwise the process becomes a zombie |
| `Kernel.Machine.DoExit` | kernel/sysproc.c:49-72 | files are closed; a waiting parent becomes READY with the status and the memory goes back, otherwise a zombie is left; then the scheduler goes on; every other process keeps its memory and there is no panic |
| `Kernel.Machine.Reap` | kernel/sysproc.c:162-167 | the zombie's memory goes back and the call returns 0; every other process keeps its memory and there is no panic |
| `Kernel.Machine.Block` | kernel/sysproc.c:168-171 | the caller blocks and the scheduler goes on |
| `Kernel.Machine.DoWait` | kernel/sysproc.c:149-172 | -1 exactly without a match; a zombie is reaped; otherwise the caller blocks, and it is lost if and only if the slot matched was already reaped; there is no panic |
| `Kernel.Machine.DoExec` | kernel/exec.c:80-139 | the memory of the running process is replaced by the program; table, files and the memory of other processes stay; a panic only with no frame left |
| `Kernel.Machine.DoOpen` | kernel/sysfile.c:91-136 | the whole new state of descriptors and counts in every case, and the value returned; the counts do not survive exactly if a descriptor was taken and the file left in it is no device |
| `Kernel.Machine.DoClose` | kernel/sysfile.c:138-153 | -1 for a free descriptor; otherwise exactly this descriptor is freed and the count of its file goes down, the file being freed with the last |
| `Kernel.Machine.DoDup` | kernel/sysfile.c:255-272 | the first free descriptor becomes a copy and the count goes up; -1 exactly if the given descriptor is free or none is |
| `Kernel.Machine.DoDup3` | kernel/sysfile.c:274-289 | exactly the target descriptor changes, with the counts that follow; they do not survive exactly for a counted file duplicated onto itself |
| `Kernel.Machine.Step` | kernel/ctrap.c:28-67 | any operation keeps the invariant of table, memory and descriptors and has its effect on table, descriptors and counts; it panics only if a fork or an exec finds no frame left; it miscounts exactly on the stated opens and duplications, is refused exactly outside the model, and finds no process id exactly if a fork needs one and the `int` counter is at its end; every process but the running one keeps both walks of every page and the bytes behind them |
| `Kernel.Machine.Run` | kernel/sysproc.c:9-172 | every run is a chain of these effects, none refused or miscounted, up to its end, a halt or the exact outcome of its last operation; every process that did not run since the start is still there with its memory; every READY process is chosen within 256 scheduler calls, its result unchanged until then; nobody is lost without a wait on a reaped slot; a panic only with no frame left |
| `KernelSteps.TrailFair` | kernel/process.c:176-198 | in every run a process READY at the start and not running is chosen within 256 scheduler calls |
| `KernelSteps.TrailAwaits` | kernel/process.c:176-198 | until it is chosen it stays READY and its result is unchanged |
| `KernelSteps.EffectLive` | kernel/sysproc.c:49-172 | a step ends or replaces no process but the running one |
| `KernelSteps.TrailLive` | kernel/sysproc.c:49-172 | in every run a process that did not run is still there, under its process id |
| `KernelSteps.TrailLost` | kernel/sysproc.c:149-172 | in every run nobody is lost without a wait on a slot already reaped |
| `KernelSteps.KeptOn` | kernel/sysproc.c:49-147 | one more step keeps the memory of every process that did not run |
| `KernelSteps.SecondWaitLoses` | kernel/sysproc.c:153-171 | in every state a second wait for a child that the first one reaped loses the parent |
| `KernelSteps.SecondWaitHangs` | kernel/sysproc.c:74-171 | from boot, whatever is open: fork, yield, exit of the child and two waits for it end with the machine halted |
| `CallResults.ForkResult` | kernel/sysproc.c:74-147 | the first UNUSED slot becomes a READY child with the next process id that gets 0, the caller gets that id, or -1 if there is no slot; every other slot is as it was |
| `CallResults.ExitWakes` | kernel/sysproc.c:49-67 | a parent that waits is READY or runs, and its call gives the exit status; the slot is UNUSED without open files; every other slot is as it was |
| `CallResults.ExitLeaves` | kernel/sysproc.c:68-72 | otherwise the slot is a ZOMBIE that keeps the status |
| `CallResults.WaitResult` | kernel/sysproc.c:149-171 | a ZOMBIE child is reaped and the call gives 0; any other child is flagged and the caller BLOCKED; without such a child the call gives -1 |
| `CallResults.FirstRun` | kernel/process.c:113-119 | in every run a READY process gets, the first time it runs, the result it had |
| `CallResults.StatusArrives` | kernel/sysproc.c:60-66 | in every run the exit status of a child that is waited for is what the parent gets the first time it runs again |
| `CallResults.ChildGetsZero` | kernel/sysproc.c:130 | in every run a forked child gets 0 the first time it runs |
| `DescriptorChains.FollowBuilt` | kernel/drivers/virtio.c:139-221 | walking a table along a chain gives exactly the chain's buffers, in order, and ends |
| `DescriptorChains.ElemsOf` | kernel/drivers/virtio.c:154-208 | a request is its inputs, which the device may read, and then its outputs, which it may write, in order |
| `DescriptorChains.BlockRead` | kernel/drivers/virtio.c:154-208 | the three buffers of a block read as the device sees them |
| `QueueState.DeviceSees` | kernel/drivers/virtio.c:139-221 | from the head of every request not yet completed the device sees exactly its buffers, inputs read-only and then outputs writable (sections 2.6.4.2 and 2.6.5 of VirtIO 1.1) |
| `QueueState.PendingFit` | kernel/drivers/virtio.c:212-218 | unread requests and free descriptors together never exceed the ring: no slot is overwritten before it is read (section 2.6.6 of VirtIO 1.1) |
| `QueueState.DoneFit` | kernel/drivers/virtio.c:232-247 | completions not yet taken never exceed the used ring, and do not fill it while a request is not completed |
| `Virtqueue.Queue.constructor` | kernel/drivers/virtio.c:122-138 | all 16 descriptors are free, linked in order |
| `Virtqueue.Queue.LinkAll` | kernel/drivers/virtio.c:134-137 | each descriptor links to the next, in the shadow and in the device's table |
| `Virtqueue.Queue.Take` | kernel/drivers/virtio.c:189-198 | the first free descriptor is filled, in the shadow and in the device's table |
| `Virtqueue.Queue.AddDirect` | kernel/drivers/virtio.c:186-211 | a chain of free descriptors; the device reads the request from it exactly if there is an output and the count fits in eight bits |
| `Virtqueue.FillList` | kernel/drivers/virtio.c:154-168 | the indirect list as the device reads it |
| `Virtqueue.Queue.AddIndirect` | kernel/drivers/virtio.c:145-185 | one descriptor and a list page; the panic about a list already there is unreachable; a panic only with no frame left |
| `Virtqueue.Queue.Publish` | kernel/drivers/virtio.c:212-219 | the head goes to the slot of the running count; both copies of the count wrap with it |
| `Virtqueue.Queue.Add` | kernel/drivers/virtio.c:139-221 | rejected exactly when the code says so; otherwise the device reads exactly the request from the published head if and only if there is an output and at most 255 buffers; the chain comes off the front of the free list; a panic only with no frame left |
| `Virtqueue.Queue.RecycleChain` | kernel/drivers/virtio.c:269-284 | the loop clears exactly the chain, and the device's copies of all but its last descriptor, and links it before the old free list |
| `Virtqueue.Queue.RecycleList` | kernel/drivers/virtio.c:255-268 | the head and the list page go back |
| `Virtqueue.Queue.Recycle` | kernel/drivers/virtio.c:250-285 | exactly the chain that was added becomes free again, and its list page is freed |
| `Virtqueue.Queue.Fetch` | kernel/drivers/virtio.c:212-219 | a device that reads the next head sees exactly the request |
| `Virtqueue.Queue.Complete` | kernel/drivers/virtio.c:232-239 | a device may complete requests it has read in any order; the invariant stays |
| `Virtqueue.Queue.Poll` | kernel/drivers/virtio.c:232-247 | one round of the loop with its own test: it waits exactly while there is no completion and the counter is below 2^16; a completion is recycled if it is the one waited for, otherwise nothing changes; past 2^16 without a completion, the request is recycled before it is completed exactly if the stale slot holds its head |
| `Virtqueue.QueuePartition` | kernel/drivers/virtio.c:134-221 | in every state the first 16 - num_used descriptors from free_head and the chains in flight partition the 16 descriptors |
| `Virtqueue.FreeAlongLinks` | kernel/drivers/virtio.c:134-137 | following the links from free_head gives the free list |
| `Virtqueue.PollExact` | kernel/drivers/virtio.c:232-236 | the polling test tells whether a completion is there if and only if the 32-bit counter is below 2^16 or there is one |
| `Virtqueue.PollMisled` | kernel/drivers/virtio.c:232-236 | after 2^16 requests the idle queue looks completed |
| `Virtqueue.NotifyNotLost` | kernel/drivers/virtio.c:286-294 | a notification the device asked for through its event index is never left out (section 2.6.10 of VirtIO 1.1) |
| `Virtqueue.NotifyAlways` | kernel/drivers/virtio.c:286-294 | event indices hold back a notification only for the first 15 requests: from then on every request is notified whatever the device asks |
| `QueueRuns.FetchExact` | kernel/drivers/virtio.c:212-219 | the 16-bit indices tell the device exactly whether there is a request to read |
| `QueueRuns.Step` | kernel/drivers/virtio.c:139-247 | a step of the driver or the device keeps the invariant and has its effect, unless a request is improper, memory is exhausted or the polling test is misled |
| `QueueRuns.Run` | kernel/drivers/virtio.c:139-247 | every interleaving of adds, reads, completions and polls is a chain of these effects; before 2^16 requests were taken back no request is recycled early |
| `QueueRuns.TrailBalanced` | kernel/drivers/virtio.c:139-285 | in every run each request published is taken back once or is in flight |
| `QueueRuns.AddNotifyPop` | kernel/drivers/virtio.c:222-248 | with nothing else in flight the call returns exactly if the device reads and completes the request, and then all descriptors are as before; rejected exactly when the add is |
| `QueueRuns.EarlyRecycle` | kernel/drivers/virtio.c:232-247 | after 2^16 requests one after the other, the next one is recycled before the device has read it |
| `QueueRuns.NoOutput` | kernel/drivers/virtio.c:186-211 | a request with one input and no output is not what the device reads |
| `BlockCache.MoveToFront` | kernel/block_device.c:12-21 | moving a buffer to the front keeps the list an acyclic permutation of the buffers |
| `BlockCache.Cache.constructor` | kernel/block_device.c:7-57 | an empty cache over a disk |
| `BlockCache.Cache.Find` | kernel/block_device.c:8-25 | the buffer of the block, or the last of the list |
| `BlockCache.Cache.LastIsOldest` | kernel/block_device.c:46-56 | the last buffer is the least recently used |
| `BlockCache.Cache.Promote` | kernel/block_device.c:12-21 | a hit comes first and changes no contents |
| `BlockCache.Cache.NewBuffer` | kernel/block_device.c:26-45 | a free buffer is taken for the block |
| `BlockCache.Cache.Evict` | kernel/block_device.c:46-56 | the last buffer is written back and moved to the front; only the repaired code relabels it |
| `BlockCache.Cache.Get` | kernel/block_device.c:7-57 | no contents change; the buffer returned is the block's if and only if it was cached, or a buffer was free, or the code is repaired; a victim is the least recently used |
| `BlockCache.Cache.WritePart` | kernel/block_device.c:88-97 | the bytes go to the block whose buffer the request gets, another one exactly if the code as it is has to evict; they are lost exactly if they are a whole block for an invalid buffer; no other block changes |
| `BlockCache.Cache.ReadPart` | kernel/block_device.c:98-106 | the bytes of the block whose buffer the request gets, if that is valid, otherwise of the block, and then the buffer's block has these contents; nothing else changes |
| `BlockCache.Cache.WriteBytes` | kernel/block_device.c:76-120 | a store to a flat byte array, where nothing is evicted and blocks written whole have valid buffers, or the code is repaired |
| `BlockCache.Cache.ReadBytes` | kernel/block_device.c:76-115 | a load from the flat byte array |
| `BlockCache.Cache.WriteBack` | kernel/block_device.c:50-52 | one buffer goes to the disk and no contents change |
| `BlockCache.Cache.Sync` | kernel/filesystem.c:28-36 | the walk ends; the disk holds the contents of every block and no contents change |
| `BlockCache.Perform` | kernel/block_device.c:76-120 | one request answers and acts like the same request on a flat array |
| `BlockCache.Run` | kernel/block_device.c:76-120 | every interleaving of reads, writes and syncs equals a flat byte array: always on the repaired code, and on the code as it is from an empty cache when at most 64 blocks are touched and none is written whole before it was touched |
| `BlockCache.LostWrite` | kernel/block_device.c:88-97 | as the code is, a block written whole to an empty cache takes a buffer and reads back as the disk's |
| `BlockCache.WrongByte` | kernel/block_device.c:46-56 | as the code is, block 64 read after blocks 0 to 63 gives a byte of another block |
| `Bitmap.MarkOne` | kernel/filesystem.c:191-204 | setting or clearing one bit changes exactly one mark |
| `Bitmap.SameMarks` | kernel/filesystem.c:178-208 | bitmaps with the same marks are equal |
| `Bitmap.FirstFree` | kernel/filesystem.c:181-196 | the first unmarked block is marked, none exactly if all are |
| `Bitmap.FreeMark` | kernel/filesystem.c:191-193 | marking a free block takes one off the number of free blocks |
| `FileBlocks.EntryBack` | kernel/fs_file.c:49-50 | an entry written into an index block reads back and the others stay |
| `FileBlocks.GrowDirect` | kernel/fs_file.c:94-98 | a free block becomes a direct page of one file; every block still has one place |
| `FileBlocks.GrowEntry` | kernel/fs_file.c:99-108 | a free block becomes an indexed page, with a free index block for the first; every block still has one place |
| `FileBlocks.ShrinkOne` | kernel/fs_file.c:162-171 | the last page, and the index block with its last entry, have no place any more |
| `FileBlocks.OtherFile` | kernel/fs_file.c:99-108 | writing an index block changes no other file |
| `FileStore.FileSystem.AllocateBlock` | kernel/filesystem.c:178-197 | the first free block, -1 exactly if there is none |
| `FileStore.FileSystem.FreeBlock` | kernel/filesystem.c:198-208 | one mark less, -1 exactly if it was free |
| `FileStore.FileSystem.GrowPage` | kernel/fs_file.c:94-108 | one page more, exactly if the disk has the blocks it needs; otherwise a block past the disk, or, without a bit for that, -1 with all blocks marked |
| `FileStore.FileSystem.ShrinkPage` | kernel/fs_file.c:162-171 | one page less |
| `FileStore.FileSystem.Truncate` | kernel/fs_file.c:82-205 | it succeeds exactly if the disk has as many free blocks as the new pages need, and returns -1 exactly if it has not and no padding bit is free; every data or index block has one place in one inode; the bytes of kept pages of every file stay; the bitmap gains or loses exactly the blocks of the changed pages; success leaks nothing; after -1 the files are as they were and every block that was free is marked without an owner |
| `FileStore.FileSystem.GrowShrink` | kernel/fs_file.c:82-205 | growing and shrinking back, to at least one page, restores the bitmap and the places, exactly if the disk has the blocks |
| `FileStore.Leaked` | kernel/fs_file.c:94-107 | when a failed growth has marked everything, all marked blocks have an owner if and only if they had before and none was free |
| `FileStore.OneBlockLeaks` | kernel/fs_file.c:94-98 | growing by two pages with one block free returns -1 and loses the block |
| `FileStore.BlockPastDisk` | kernel/filesystem.c:181-193 | on a full disk of nine blocks the next block given out is past its end |
| `FileStore.FileSystem.Create` | kernel/filesystem.c:148-167 | an empty file under the first free inode number, none exactly if all are taken |
| `FileStore.FileSystem.CreateAndFill` | kernel/filesystem.c:214-245 | a file created, grown and written reads back; no byte of another file changes |
| `FileStore.FileSystem.WriteFile` | kernel/fs_file.c:28-80 | exactly the bytes written change, in this file and no other |
| `FileStore.FileSystem.ReadFile` | kernel/fs_file.c:28-75 | the bytes of the file |
| `FileStore.FileSystem.WriteReadBack` | kernel/fs_file.c:28-80 | what is written is read back |
| `FileCache.Mount` | kernel/filesystem.c:37-53 | a file system behind an empty cache shows the same blocks |
| `FileCache.Lookup` | kernel/fs_file.c:43-50 | the block of a page, its index entry read through the cache |
| `FileCache.WriteFile` | kernel/fs_file.c:28-80 | a write through the cache stores exactly the bytes, in this file and no other: on the repaired cache, and on the code as it is when the blocks fit the cache and those written whole were touched before |
| `FileCache.ReadFile` | kernel/fs_file.c:28-75 | a read through the cache gives the bytes of the file |
| `FileCache.WriteSyncRead` | kernel/filesystem.c:28-36 | what is written is on the disk after a sync: a cache that starts over reads it back, and every other byte of every file is as it was |
| `FileStore.PageApart` | kernel/fs_file.c:43-61 | two pages have the same block only if they are the same page of the same file |
| `FileStore.ShrinkEnds` | kernel/fs_file.c:160 | the unsigned loop counter falls below the new size, and the loop ends, if and only if at least one page is kept |
| `FileStore.AllocatedOnDisk` | kernel/filesystem.c:181-193 | with unmarked padding bits the block returned is on the disk if and only if the disk has a free block |
| `BlockCount.Additive` | kernel/fs_file.c:93-158 | allocations while growing add up over intermediate sizes, at all four levels |
| `BlockCount.FreesWhatGrew` | kernel/fs_file.c:160-200 | shrinking frees as many blocks as growing allocated, at all four levels |
| `BlockCount.GrowLoop` | kernel/fs_file.c:93-158 | the number of calls to `allocate_block` |
| `BlockCount.ShrinkLoop` | kernel/fs_file.c:160-200 | the number of calls to `free_block` |
| `BlockCount.AllocClosed` | kernel/fs_file.c:93-158 | the sum in closed form |
| `BlockCount.CeilTwice` | script/mkfs.py:150-151 | rounding up twice is rounding up once |
| `BlockCount.SameAsImageBuilder` | script/mkfs.py:117-153 | for every supported size the image builder counts exactly the blocks that growing from 0 allocates |
| `ImageBitmap.OneByte` | script/mkfs.py:179-187 | the bits from first to last are set, the others stay |
| `ImageBitmap.AllocateRun` | script/mkfs.py:158-201 | fails exactly past the bitmap; otherwise exactly the blocks of the run are marked more; for size 0 it marks two bytes when the start is a multiple of 8 |
| `DeviceTree.ExecSplit` | kernel/fdt.c:40-137 | parsing a block is parsing its parts in turn |
| `DeviceTree.ParseDtb` | kernel/fdt.c:16-138 | the loop computes the step function over the structure block |
| `DeviceTree.NameBack` | kernel/fdt.c:55-61 | a padded name in the structure block is read back as that name |
| `DeviceTree.PropertyRun` | kernel/fdt.c:80-135 | a property with any bytes as its value is skipped as a whole, and noticed exactly if its path and name are among the four looked for |
| `DeviceTree.NodeRun` | kernel/fdt.c:40-137 | over a whole node the stack of level names is that of the path to it, and is restored behind it |
| `DeviceTree.ItemsRun` | kernel/fdt.c:62-79 | properties, NOPs and subnodes in any order (section 5.4 of the Devicetree Specification v0.4) |
| `DeviceTree.ParsesTree` | kernel/fdt.c:16-138 | on every well-formed tree of depth at most 8 the parser ends at FDT_END with no node open, having found exactly what the tree says |
| `DeviceTree.ParsesAny` | kernel/fdt.c:37-138 | on every well-formed tree, however deep, the parser leaves its arrays if and only if the tree is deeper than 8 or has more than 64 matching devices |
| `DeviceTree.ParseTree` | kernel/fdt.c:16-138 | processor count, end of memory, clock frequency and virtio list are those of the tree |
| `BoardTree.HighByteFirst` | kernel/fdt.c:93-94 | words and double words are read with the highest byte first |
| `BoardTree.PfnOf` | kernel/fdt.c:95 | the end of memory in pages: the whole pages up to begin plus size, modulo 2^64 |
| `BoardTree.StringBack` | kernel/fdt.c:85 | the property name found at an offset is the string stored there |
| `BoardTree.WhatIsTaken` | kernel/fdt.c:88-118 | the four tests, name by name in bytes: `reg` of /memory@*, `cpu` below /cpus/cpu-map, `timebase-frequency` of /cpus, `reg` of /soc/virtio_mmio@* |
| `BoardTree.FoundMore` | kernel/fdt.c:88-118 | one more property: a later memory node or clock replaces the earlier one, processors are counted, devices collected |
| `BoardTree.FlatBoard` | kernel/fdt.c:16-138 | the structure block of a board, word by word |
| `BoardTree.BoardParsed` | kernel/fdt.c:16-138 | on that block: one processor, max_pfn 0x88000, 10 MHz, a device at 0x10001000 |

## Left out

- Inline assembly, control registers, the TLB, the trampoline code and the SBI calls: hardware. The Sv39 walk is kept as a specification; accessed and dirty bits are ignored. A table pointer is resolved when it is formed, so the flag stores of kernel/pagetable.c:408 and 438 through an address that is closed by then are taken to reach the entry.
- The bit layout of page table entries: an entry is a record of frame and flags.
- The list `pfreelist` of single frames: nothing in the kernel puts a frame there, so it is taken to be empty.
- Mapping pages with VPN(2) of 0 or 1, the self-map itself: no caller does.
- More than 128 GiB of memory, where the two kernel ranges would meet the trampoline.
- Allocator.PageAllocator.Dmalloc: not for zero pages, which no caller asks for.
- Zeroing of allocated memory and the contents of kernel pages, except tables, reference arrays and user pages. The program file and its headers are given to `ProgramLoad.Load` as values.
- `sys_sbrk` and `uptunmap`: the break is never stored, so there is no heap invariant in the code to prove.
- What `load_process` copies from outside the program file, before its start or behind its end: the bytes are left open. Segments are taken to be readable or executable and to end below the trap frame.
- The contents of the kernel stack that is in use while `sys_exit` and `sys_execve` free it.
- The allocation of the kernel buffers `sys_execve` uses for path and arguments, its error paths, and what happens once a copy runs past its buffer or the arguments past the stack: `Execve.ExecveArgs` ends there with `Overrun` or `Spill`.
- `getfile`, the directory entries of `create_file`, and the directory format: what a path leads to is a parameter of opening. `create_file` without a free inode: its unsigned test does not notice.
- `sys_read`, `sys_write`, `sys_lseek`, `sys_chdir` and the file permissions: they add no state beyond what is modelled.
- Descriptor numbers of 64 and more and segments that do not fit, which the system calls do not check: a step of the machine answers `Refused`.
- The words `sys_fork` and the trap handler store into trap frames, except the result register, which the process table has.
- VirtIO feature negotiation and queue registers, the block and GPU requests built on the queue, console and GPU output.
- Failing block transfers: a read or write of a disk block is taken to succeed.
- Double and triple indirect addressing in kernel/fs_file.c:51-61, 109-157 and 172-199: the offsets do not implement the layout. Only the block counts of these levels are proved.
- Growing and shrinking through the cache: `FileCache` has reads and writes of files. Inode table and bitmap blocks are kept apart from data blocks.
- Spinlock, timer, string helpers and user programs: they add only easy members.
- FileStore.FileSystem.Truncate: shrinking to zero pages is excluded, because `FileStore.ShrinkEnds` shows that the loop then does not end. Once a block past the disk is given out, nothing more is claimed.
- FileStore.FileSystem.GrowShrink: for files that have at least one page, for the same reason.
- FileStore.FileSystem.WriteFile: within the pages of the file; the code does not check, and beyond them follows pointers nobody set.
- FileStore.FileSystem.ReadFile: within the pages of the file, likewise.
- BlockCount.ShrinkLoop: for at least one page kept, where the loop ends.
- Kernel.Machine.DoExec: without the argument stack, which `Execve.ExecveArgs` adds on the same memory.
- Virtqueue.Queue.Add: up to 255 inputs and 255 outputs, the range of the 8-bit counts; `addr` of a directly added buffer is what the caller passed, as in the code.
- UserBytes.CopyOut: buffers all of whose pages the kernel has; for any other page `walkupt` gives 0 and the code stores at address 0.
- UserBytes.Fetch: strings on pages the kernel has, likewise.
- ExecStack.FetchStrings: arrays and strings on pages the kernel has, likewise.
- ImageBitmap.AllocateRun: not for a run of no blocks at block 0 or past the bitmap, where the index of the last byte is negative or out of range.
- How many frames a fork, an exec or a load takes: a panic is tied to the frames being used up when it happens, not to a bound known before the call.
