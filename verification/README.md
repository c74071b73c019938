# KeshOS: a verified model of the kernel's memory stack and of its protocols

The project models the parts of KeshOS whose correctness spans many functions, and proves what the code keeps over every
run. `dafny verify dfyconfig.toml` checks all of it.

**Memory, in layers that rest on each other**

- `FreeList`, `PhysMem`, `AllocatorRuns`: the best-fit page allocator over a sorted array of free ranges. The free list is a
  canonical form of the set of free pages, so equal page sets mean equal lists.
- `Hardware`, `PageTree`, `Vmm`: 4-level page tables (section 4.5 of volume 3A of the Intel SDM) that live in frames of that
  allocator. Two ghost maps describe them: `tab` gives the frame of every live table, `view` is the finite map from pages to
  (frame, flags) that the tables represent. All address spaces share both.
- `AddressSpace`, `PageRuns`: ownership of frames, whole lives of address spaces, and all-or-nothing operations on runs of pages.
- `Isolation`: many address spaces at once, mapped, unmapped, copied to and destroyed in turn.
- `UserCopy`: copies to and from user memory, against a byte-by-byte specification.
- `ElfFormat`, `ElfLoader`: the ELF64 loader (chapter 5, "Program Loading", of the System V gABI).
- `ProcessVm`, `RegionRuns`, `ProgramLife`: regions, the heap, teardown, a run that tears a region, and the life of a program
  from loading to teardown.
- `Processes`: the process table; any number of programs loaded, at work and ended in any order, each with its regions and
  heap.

**Protocols and other state machines**

- `Scheduler`: two-level round robin. `Descriptors`: shared file objects, reference counts, pipes. `Nvme`: the queue pair with
  phase tags (section 4.6 of the NVM Express Base Specification 1.4) and chunked transfers. `Services`: dependency-ordered
  services. `SystemUpdate`: the A/B update. `Ipc`: selective receive. `Blur`: the sliding-window box blur.

**Conventions**

- Physical memory is counted in pages of 4096 bytes; a frame is a page number below 2^40. Public operations that take byte
  addresses in the C code take byte addresses here, except that address spaces and regions are named by page numbers.
- The contents of a frame appear twice, as 512 entries (`words`) and as 4096 bytes (`bytes`). Code that walks tables uses the
  first, code that copies data the second. `UserCopies.OwnedCopy` shows that copies through pages whose frames the address
  space owns never store into a table, which is what keeps the two apart; for frames lent to it by process_vm_map_phys that
  is up to the lender.
- The unrolled loops over table levels in kernel/memory.c are recursion over the level. A section under a lock is one step.
  `invlpg` and interrupt flags have no effect in the model; the clock, the device, the file system, the signature check and
  user code appear as parameters that can take any value. Statistics counters do not wrap.
- "Stock" is what has been given back to the allocator together with the frames of live tables. "Lost" pages are those whose
  release was refused because the free-range array was full. The allocator keeps as an invariant that there are none while
  the peak of pages in use (pmm_get_diagnostics reports it) and the number of regions together stay below the size of the
  array (`Roomy`); `PhysicalMemory.NeverFull` is the step behind it and `AllocatorRuns.LosePage` a run that does lose a page.
  Results that say that the free list is the same list say so under that condition.
- Assumptions of the code that the model states as preconditions: usable boot regions do not overlap, do not contain page 0
  and end below 2^52; the kernel's own tables lie outside managed memory; a frame that is unmapped with the freeing flag, or
  torn down, is neither a table nor lost.

## Model

| member | source | states |
|---|---|---|
| FreeList.CanonicalUnique | kernel/memory.c:73-106 | two sorted, gap-separated lists that cover the same pages are the same list |
| FreeList.BestFitIsBest | kernel/memory.c:167-173 | the chosen range is a smallest sufficient one, the first of them |
| PhysicalMemory.CoalescedCanonical | kernel/memory.c:82-104 | inserting between neighbours and joining left and right gives a canonical list again |
| PhysicalMemory.PhysMem.InsertFreeRange | kernel/memory.c:73-106 | succeeds exactly if the range is not empty, the array has room and no page is free already; the list stays canonical and gains exactly these pages |
| PhysicalMemory.PhysMem.ScanMap | kernel/memory.c:126-150 | the regions recorded from the boot map and their total size |
| PhysicalMemory.PhysMem.constructor | kernel/memory.c:108-155 | after boot every managed page is free and the accounts balance |
| PhysicalMemory.PhysMem.FindBest | kernel/memory.c:167-173 | the scan computes the best fit |
| PhysicalMemory.PhysMem.AllocPages | kernel/memory.c:157-194 | the block is the front of a best-fitting range, was free, is free no longer and is cleared; otherwise nothing changes; free plus used pages stay the total |
| PhysicalMemory.PhysMem.AllocPage | kernel/memory.c:196-198 | a single page is refused only when no page is free |
| PhysicalMemory.PhysMem.FreePages | kernel/memory.c:200-219 | accepted exactly if aligned, inside one region, not free and the array has room; then exactly these pages become free |
| PhysicalMemory.PhysMem.Release | kernel/memory.c:206-218 | the same under the lock; the use count drops by the block, so the saturating branch is never taken |
| PhysicalMemory.PhysMem.Diagnostics | kernel/memory.c:234-254 | free and allocated pages add up to the total; the largest run is exactly the largest request that would succeed |
| AllocatorRuns.Run | kernel/memory.c:157-219 | over any requests outstanding blocks never overlap each other or free pages, and no page appears or disappears |
| AllocatorRuns.AllocThenFree | kernel/memory.c:157-219 | freeing a fresh block works exactly if it lies in one region and the array has room; then the list is the very list before, and the next equal request gets the same address |
| AllocatorRuns.StraddlingBlock | kernel/memory.c:66-71 | a block over two adjacent regions can be handed out but not freed |
| AllocatorRuns.SelfTest | kernel/kernel.c:86-94 | the allocator part of the boot self-test succeeds exactly if a page and a run of three pages are granted and both can be given back; then the free list is as before |
| AllocatorRuns.SinglePage | kernel/memory.c:196-219 | a single page that is granted can be given back unless the array is full |
| PhysicalMemory.NeverFull | kernel/memory.c:73-74 | the array has room while regions and pages in use are fewer than its size |
| AllocatorRuns.LosePage | kernel/memory.c:73-106 | a run from boot that fills the array: the next page released is refused and lost |
| PageTables.LeafInjective | kernel/memory.c:278-292 | different pages select different table entries |
| PageTree.OccupiedIsPresent | kernel/memory.c:391-394 | a table is needed by something exactly if one of its entries is present |
| PageTree.SameTables | kernel/memory.c:396-431 | the tables are determined by the pages mapped |
| PageTables.Vmm.Descend | kernel/memory.c:308-374 | one level of a mapping: find the child table or build an empty one; fails only without a free page |
| PageTables.Vmm.MapBelow | kernel/memory.c:308-374 | below one table: success adds one page, failure takes back every table built for it |
| PageTables.Vmm.MapPage | kernel/memory.c:308-374 | succeeds exactly if the checks pass, the page is not mapped and the missing tables fit into free memory; success adds one binding; failure changes no translation, no table and no free page, but user bits it raised in entries of existing tables stay raised; no other entry that was present changes either way |
| PageTables.Vmm.GetEntry | kernel/memory.c:278-306 | the walk finds the entry the map has |
| PageTables.Vmm.SetFlags | kernel/memory.c:376-389 | changes the flags of one mapped page and nothing else, under exactly these conditions |
| PageTables.Vmm.TableEmpty | kernel/memory.c:391-394 | true exactly if nothing is below the table |
| PageTables.Vmm.UnmapPage | kernel/memory.c:396-431 | removes one binding, frees its frame if asked, prunes empty tables; the result tells whether every release was accepted |
| PageTables.Vmm.FreeBelow | kernel/memory.c:433-474 | all pages and tables below one table are given back |
| PageTables.Vmm.FillPml4 | kernel/memory.c:266-276 | the user half is empty, the kernel half is the kernel's |
| PageTables.Vmm.CreateUserPml4 | kernel/memory.c:266-276 | fails only without a free page; the new space is empty and new |
| PageTables.Vmm.DestroyUserPml4 | kernel/memory.c:476-496 | every page and table of the space is gone, exactly its frames are given back, other spaces are untouched, CR3 leaves it |
| AddressSpaces.MapUnmap | kernel/memory.c:308-431 | map then unmap without freeing restores translations and tables, and the free list unless the peak of pages in use reached the size of the array |
| AddressSpaces.MapFresh | kernel/memory.c:308-374 | a page allocated for a mapping that fails is given back; with four free pages it cannot fail for lack of memory |
| AddressSpaces.OuterUntouched | kernel/memory.c:266-276 | memory outside the allocator, the kernel's tables included, never changes |
| AddressSpaces.OthersTables | kernel/memory.c:308-431 | operations on one address space leave the tables of others where they are |
| AddressSpaces.Life | kernel/memory.c:266-496 | create, any run of mapping fresh pages, freeing unmaps and flag changes, destroy: tables, translations and free pages are as before the create, and the free list under the same condition |
| Isolation.GroupStep | kernel/memory.c:308-431 | what one process does with its own pages keeps every frame with one owner |
| Isolation.CopyMisses | kernel/memory.c:555-576 | a copy into one address space changes no byte of another |
| Isolation.Obey | kernel/memory.c:266-576 | one command of one process changes the tables, pages and memory of no other, and CR3 names no space that is gone |
| Isolation.Serve | kernel/memory.c:266-576 | over any commands of any processes in any order no two pages share a frame, and a process that no command names keeps its pages and every byte |
| Isolation.Lives | kernel/memory.c:266-576 | when all processes have ended, tables, translations and free pages are as before the first, and the free list under the same condition |
| UserCopies.UserRangeValid | kernel/memory.c:502-530 | true exactly if every page of the range is mapped for user code with the wanted rights, below the limit, in a user space |
| UserCopies.CopyFromUser | kernel/memory.c:532-553 | byte i of the buffer is the byte at address + i through the translation; refused copies, and bytes past the size, leave the buffer alone |
| UserCopies.CopyToUser | kernel/memory.c:555-576 | memory afterwards is what storing byte after byte through the translation gives; a refused copy changes no byte |
| UserCopies.CopyReadsBack | kernel/memory.c:555-576 | user code then reads the copied bytes in the range and its old bytes elsewhere |
| UserCopies.RangeMapped | kernel/memory.c:502-530 | an accepted range has no absent page |
| UserCopies.OwnedCopy | kernel/memory.c:555-576 | a copy stores into no table and no free page, except through pages whose frames are lent |
| ElfFormat.AcceptedIfClear | kernel/elf.c:43-97 | program headers that pass lie in the file and in user space, off the stack, do not overlap and agree on shared pages |
| ElfFormat.SegmentImage | kernel/elf.c:117-129 | every byte of a segment is its file byte below the file size and zero from there on, whatever other segments there are |
| ElfFormat.OffStack | kernel/elf.c:38-76 | no page of an accepted segment is a stack page |
| ElfLoader.CheckSegment | kernel/elf.c:46-97 | the checks of one program header and their order, the overlap loop included |
| ElfLoader.CopyIn | kernel/elf.c:117-129 | exactly the file bytes that fall on the page are copied |
| ElfLoader.FetchPage | kernel/elf.c:99-115 | a page is reused exactly if permissions agree, else refused; a new page is zero |
| ElfLoader.LoadPage | kernel/elf.c:99-131 | after the page is done it holds the image of the segments so far |
| ElfLoader.LoadHeaders | kernel/elf.c:41-132 | the loop over program headers: result, image, entry point and memory used |
| ElfLoader.EntryOk | kernel/elf.c:138-143 | the second test of the entry point never fails |
| ElfLoader.MapStack | kernel/elf.c:145-152 | the stack pages are new, zero, writable and not executable |
| ElfLoader.ElfLoad | kernel/elf.c:18-160 | the result is decided by the file unless memory runs out, which it does only below a stated demand; on success exactly the image and the stack are mapped and owned; on every failure tables, translations and free pages are as before, and the free list unless the peak of pages in use reached the size of the array |
| ElfLoader.LoadedMeaning | kernel/elf.c:99-152 | what a loaded program sees at every address of every segment: permissions, never writable and executable, file byte or zero, not a stack page |
| PageRuns.FillRun | kernel/process.c:861-870 | map a run of fresh zero pages, or none |
| PageRuns.LendRun | kernel/process.c:949-954 | map a run of given frames, or none |
| PageRuns.RollUp | kernel/process.c:865 | the rollback restores translations, tables and free pages |
| PageRuns.RollDown | kernel/process.c:1042-1048 | the same for the loop that counts down |
| PageRuns.ReflagRun | kernel/process.c:994-996 | the second loop of process_vm_protect cannot fail and changes only flags |
| ProcessMemory.FindBase | kernel/process.c:850-857 | the first clear place in steps of the size |
| ProcessMemory.Process.constructor | kernel/process.c:264-271 | a new process has no regions, an empty heap and owns its pages |
| ProcessMemory.Process.VmMap | kernel/process.c:840-876 | a new zeroed region above all others, or no change at all; when it must succeed; no region is torn or mended |
| ProcessMemory.Process.VmMapPhys | kernel/process.c:930-960 | the same for frames of somebody else, which stay theirs |
| ProcessMemory.Process.VmUnmap | kernel/process.c:999-1018 | without such a region nothing changes; with one it succeeds exactly if the region was whole and no release is refused for lack of room, and then exactly its pages go; otherwise exactly a leading part of its pages goes, it stays in the table without its first page, so later calls fail on it again, and it joins the torn regions, which are otherwise the same |
| ProcessMemory.Process.VmProtect | kernel/process.c:976-997 | all pages change or none, exactly if every page is mapped and in a region; no region is torn or mended |
| ProcessMemory.Process.Brk | kernel/process.c:1020-1058 | the heap end is always the break rounded up; accepted requests map or unmap exactly the pages between; refused ones change nothing; no region is torn or mended |
| ProcessMemory.Process.Release | kernel/process.c:82-129 | teardown gives back exactly the owned frames, once each, and no lent frame |
| ProcessMemory.LayoutMapped | kernel/process.c:871-875 | mapping a region keeps regions page-aligned, disjoint and away from the heap, and the heap mapped; the new region is whole, and the torn ones are the same as before |
| ProcessMemory.LayoutHeap | kernel/process.c:1028-1056 | so does moving the heap |
| ProcessMemory.Serve | kernel/process.c:840-1058 | only an unmap tears a region, and only the one it was asked for; it tears one that was whole only if a page is lost |
| ProcessMemory.ServeAll | kernel/process.c:840-1058 | over any memory calls the torn regions are those from before and those whose unmapping failed; as long as no page is lost no region is torn that was whole |
| ProcessMemory.RegionsStayWhole | kernel/process.c:840-1058 | from the start of a process on, over any memory calls every active region is fully mapped, unless a page was lost |
| RegionRuns.TearRegion | kernel/process.c:1007-1008 | a run in which a page is lost and a region is torn |
| ProcessMemory.WholeLife | kernel/process.c:82-129 | whatever memory calls a process makes, teardown leaves the pages as if it had never been |
| ProgramLives.Program | kernel/process.c:131-280 | load, run with any memory calls, tear down: tables, translations and free pages are as before, and the free list unless the peak of pages in use reached the size of the array |
| ProcessGroups.GroupStep | kernel/process.c:840-1058 | what one process does with its memory keeps every other sound and every frame that is not lent with one owner |
| ProcessGroups.GroupBorn | kernel/process.c:131-280 | so does a new process |
| ProcessGroups.GroupGone | kernel/process.c:82-129 | and one that ends, whose frames go back |
| ProcessGroups.Obey | kernel/process.c:82-1058 | one start, memory call or end in the process table changes no region, heap, page or owned frame of another process, and tears no region while no page is lost |
| ProcessGroups.ServeGroup | kernel/process.c:82-1058 | over any starts, memory calls and ends of any processes in any order every process in the table is sound, none shares a frame it owns, one that no command names keeps regions, heap, pages and their contents, and as long as no page is lost every active region of every process is fully mapped |
| ProcessGroups.Lives | kernel/process.c:82-1058 | when all processes have ended, tables, translations and free pages are as before the first, and the free list unless the peak of pages in use reached the size of the array |
| Scheduling.Scheduler.FindThread | kernel/process.c:388-397 | the eligible thread closest to the cursor |
| Scheduling.Scheduler.StepActive | kernel/process.c:382-427 | the closest process that can run gets a turn; nothing is on the CPU afterwards, whatever user code did |
| Scheduling.Scheduler.ExitCurrentThread | kernel/process.c:796-838 | the thread ends, and the process with its last thread |
| Scheduling.EffectKeepsRunning | kernel/process.c:517-589 | kill, stop, continue, exit, thread creation, spawn and sleep put no thread on the CPU |
| Scheduling.TurnIsExclusive | kernel/process.c:399-424 | during a turn at most the dispatched thread is on the CPU, after it none |
| Scheduling.StepCursor | kernel/process.c:399-424 | only the dispatched process' cursor moves, to just past the thread that ran |
| Scheduling.ProcessTurn | kernel/process.c:382-427 | a process that can run at every call gets a turn within MAX_PROCESSES calls |
| Scheduling.ThreadTurn | kernel/process.c:382-427 | a continuously eligible thread gets one within MAX_PROCESSES * MAX_THREADS_PER_PROCESS calls |
| Descriptors.RefsStep | kernel/fd.c:159-172 | opening or closing one descriptor keeps every count equal to the number of open descriptors |
| Descriptors.PipeLifetime | kernel/fd.c:204-213 | a pipe is allocated exactly while an open descriptor names one of its ends |
| Descriptors.AllClosed | kernel/fd.c:200-227 | with every descriptor closed every file object and pipe is free |
| Descriptors.FdTable.CloseAll | kernel/fd.c:227 | closing all processes frees every file object and every pipe |
| Descriptors.FdTable.constructor | kernel/fd.c:67-72 | everything is free |
| Descriptors.FdTable.Open | kernel/fd.c:74-103 | succeeds exactly if the flags are a known combination, the file system agrees and a file object and a descriptor are free; then a free descriptor names a free file object, else nothing changes |
| Descriptors.FdTable.PipeCreate | kernel/fd.c:105-127 | exactly if two descriptors, two file objects and a pipe are free, two descriptors name the ends of a new empty pipe; otherwise nothing changes; other open descriptors keep their file objects |
| Descriptors.FdTable.BindPty | kernel/fd.c:129-139 | the same for a terminal |
| Descriptors.FdTable.BindPtyStdio | kernel/fd.c:141-153 | exactly if descriptors 0 to 2 and a file object are free, the three share one object with count three; everything else is the same |
| Descriptors.FdTable.DupMin | kernel/fd.c:155-172 | the lowest free descriptor shares the object |
| Descriptors.FdTable.Dup2 | kernel/fd.c:174-184 | the target is closed first and then shares the object; the other descriptors keep their file objects |
| Descriptors.FdTable.Inherit | kernel/fd.c:186-198 | exactly if the child has none, it gets every descriptor but terminals; the descriptors of all other processes, and every open descriptor's file object, stay |
| Descriptors.FdTable.Close | kernel/fd.c:200-226 | closes exactly an open descriptor; the other descriptors keep their file objects |
| Descriptors.FdTable.Detach | kernel/fd.c:204-224 | the count drops; the last reference to an end takes it off its pipe |
| Descriptors.FdTable.CloseOwner | kernel/fd.c:227 | all descriptors of the process, and no other, are closed |
| Descriptors.FdTable.CreateCustom | kernel/fd.c:381-399 | a descriptor for an object of another kind, which it records, exactly if a file object and a descriptor are free |
| Descriptors.FdTable.BindFileId | kernel/fd.c:422-431 | sharing by object number, exactly if the object is in use and a descriptor is free |
| Descriptors.FdTable.ReadPipe | kernel/fd.c:237-246 | the oldest bytes, as many as are there and fit |
| Descriptors.FdTable.WritePipe | kernel/fd.c:268-279 | as many bytes as fit are appended; refused exactly if no descriptor anywhere can read them |
| Descriptors.FdTable.PollPipe | kernel/fd.c:344-352 | readable, writable and hung up exactly in terms of contents and open descriptors |
| Descriptors.FdTable.PollThenRead | kernel/fd.c:237-351 | a read end is readable exactly if the next read returns data |
| Descriptors.FdTable.PollThenWrite | kernel/fd.c:268-351 | a write end is writable exactly if the next write that is not empty is accepted at least in part |
| Descriptors.FdTable.Handle | kernel/fd.c:74-431 | one request of any kind from any process leaves the bytes of every pipe alone, except that a write adds what it reports and a read takes what it returns; descriptors it does not close or replace keep their file objects |
| Descriptors.FirstInFirstOut | kernel/fd.c:105-279 | in any run of such steps, what a pipe accepted since it was created is what it delivered followed by what it holds |
| Descriptors.Serve | kernel/fd.c:67-431 | so over any requests of any processes on the table, opens, closes, copies and other pipes included, until the pipe is freed |
| Descriptors.ServeFor | kernel/fd.c:67-431 | and for a descriptor: as long as its own process does not close or replace it, it stays an end of the same pipe, all reads or writes through it go there, and the bytes come out in order |
| NvmeQueues.PolledEntry | kernel/nvme.c:83-91 | the polled entry has the expected tag exactly if a new completion is there, and then is the oldest one |
| NvmeQueues.Controller.Send | kernel/nvme.c:74-80 | identifiers count up in 16 bits and skip zero |
| NvmeQueues.Controller.Submit | kernel/nvme.c:73-98 | on an idle queue the result is the command's own status, and the queue is idle again exactly if the device answered; with commands outstanding it fails unless a multiple of 65535 of them are |
| NvmeQueues.SameId | kernel/nvme.c:74-76 | when two commands share an identifier |
| NvmeQueues.SubmitAll | kernel/nvme.c:73-98 | over any number of commands each result is the command's own status, on the disk as the commands before left it, until an answer is missed; that command and the next 65534 fail |
| NvmeQueues.Controller.Transfer | kernel/nvme.c:201-222 | on an idle queue a read fills the buffer with exactly the blocks asked for, in order; a write changes exactly those, or a leading part on failure; with commands outstanding it fails and leaves the buffer alone unless a multiple of 65535 of them are |
| BoxBlur.WindowMoves | src/desktop.c:1567-1587 | one pixel enters and one leaves: the running sums are the sums of the next window |
| BoxBlur.Slide | src/desktop.c:1553-1593 | the sliding window computes the plain filter of a line and never divides by zero |
| BoxBlur.QuotientIsFloor | src/desktop.c:1589-1592 | the channel means are floors |
| BoxBlur.ClippedMeaning | src/desktop.c:1506-1534 | clipping keeps exactly the part on the screen |
| BoxBlur.BlurRect | src/desktop.c:1494-1649 | inside the clipped rectangle every pixel is the column filter of the row filter of the old image; refused requests change nothing |
| BoxBlur.BlurredPixel | src/desktop.c:1494-1649 | such a pixel is the mean over the window of rows of the means over the window of columns of the old image |
| BoxBlur.BoxIsMean | src/desktop.c:1589-1592 | each channel of such a mean is the sum over the window divided by the size of the window |
| BoxBlur.OutsideSame | src/desktop.c:1494-1649 | outside it nothing changes |
| Services.ServiceManager.Register | kernel/service.c:42-85 | a dependency is always registered earlier |
| Services.ServiceManager.Launch | kernel/service.c:141-151 | a start runs only when the dependency is ready |
| Services.ServiceManager.StartOne | kernel/service.c:130-152 | the recursion ends and never meets a service twice; ready exactly on success; ready services are undisturbed and closedness is kept |
| Services.ServiceManager.StartAll | kernel/service.c:154-169 | closedness is kept; 0 means all are ready |
| Services.ServiceManager.Restart | kernel/service.c:171-176 | closed again exactly if it succeeds or no ready service depends on it |
| Services.ServiceManager.Poll | kernel/service.c:188-217 | a pass that is due leaves the ready set closed under dependencies, from any state |
| SystemUpdates.ActiveReadsBack | kpm/system_update.c:65-89 | the active slot reads back as written |
| SystemUpdates.PendingReadsBack | kpm/system_update.c:73-126 | what is read back as pending, for every release text |
| SystemUpdates.PendingExactly | kpm/system_update.c:73-126 | every pending slot reads back exactly if the release text forges no entry; a text without '=' never does |
| SystemUpdates.ForgeryExample | kpm/system_update.c:119-126 | a release text that changes the pending slot |
| SystemUpdates.Updater.Stage | kpm/system_update.c:91-117 | succeeds exactly if the bundle is accepted, fits and every storage operation is granted; never writes the active slot; success means the other slot holds the accepted bundle, and what is pending is that slot or the last slot the release text forges |
| SystemUpdates.Updater.Confirm | kpm/system_update.c:119-126 | the pending slot becomes active; if that is another slot, it holds an accepted bundle |
| SystemUpdates.Updater.Rollback | kpm/system_update.c:128-131 | the active slot stays, nothing is pending |
| SystemUpdates.Run | kpm/system_update.c:91-131 | over any run, whatever the release texts, the active slot only changes to one that holds an accepted bundle |
| Messages.Ipc.Send | kernel/ipc.c:36-47 | appended to the target's queue exactly if the arguments are good and there is room |
| Messages.Ipc.Receive | kernel/ipc.c:51-72 | the first match is taken, the others keep their order |
| Messages.Ipc.CloseOwner | kernel/ipc.c:80-92 | exactly the messages it sent or was owed disappear |
| Messages.ReceiveTakesOldest | kernel/ipc.c:57-64 | a selective receive takes the oldest message of its sender and type |
| Messages.NotFromKeeps | kernel/ipc.c:85-90 | the purge keeps exactly the messages of other senders |
| Messages.ChannelOrder | kernel/ipc.c:36-92 | over any run, any filters and any closes: what was received of a channel, then what is waiting, is in the order of acceptance and nothing is in it twice |
| Messages.NoneLost | kernel/ipc.c:36-92 | since the sender or the receiver was closed last nothing of a channel is lost; closing either drops exactly what was waiting |
| Messages.Ipc.Handle | kernel/ipc.c:36-92 | what one request does to every queue |
| Messages.Serve | kernel/ipc.c:36-92 | both results for any requests on the queues |

## Left out

- PageTables.Vmm.MapPage: kernel-half addresses without the user flag are not modelled; such a call would edit tables that all address spaces share with the kernel.
- PageTables.Vmm.SetFlags: the same restriction.
- PageTables.Vmm.UnmapPage: only user-half addresses; with the freeing flag the frame must be neither a table nor lost.
- PageTables.Vmm.DestroyUserPml4: the frames of the space's pages must be its own (managed, not given back, not shared); `Owns` is the invariant under which callers meet this.
- UserCopies.UserRangeValid: the loaded CR3 is the kernel's, zero or a live user space; `Isolation.Serve` proves that this stays so over any run.
- ElfLoader.CheckSegment: the return code for a rounded end below the end (-10) cannot occur, because the end is at most 2^47; the model has no such branch.
- UserCopies.OwnedCopy: a copy through a page whose frame is lent stores into whatever frame process_vm_map_phys was given; that this is no table is up to its caller.
- ProcessGroups.ServeGroup: contents of lent frames are not followed, and copies into user memory are in `Isolation.Serve`; the argument page that a start writes on the new stack is not modelled.
- ProcessMemory.Process.Release: window buffers (uwindow_destroy_process) and memfd reference counts are not part of this model.
- ProcessMemory.Process.VmMap: the check that some process is current, which only returns 0, is left to the caller.
- Scheduling.Scheduler.StepActive: the clock is read once per call.
- NvmeQueues.Controller.Submit: the device takes a command when the doorbell rings, so an overrun of the submission ring by commands that never complete is not modelled. After a missed completion the queue does not recover before 65535 commands are outstanding; what a call returns then is not stated.
- Descriptors.FdTable.Open: file offsets and the contents of files are not modelled; what the file system says about a path is a parameter.
- Descriptors.FdTable.CreateCustom: sockets, memfds, eventfds and input devices behind the descriptor are not modelled; the kind passed is never a pipe end, and the object behind it is a number.
- Services.ServiceManager.StartOne: the branch for a service met again while it is being started is proved unreachable instead of modelled.
- SystemUpdates.Updater.Stage: storage is all-or-nothing, as a map from slots to bundles.
- BoxBlur.BlurRect: the frame buffer is two-dimensional instead of row-major in one array; overflow of 32-bit coordinates is not modelled.
- process_vm_map_fixed (kernel/process.c:882-928): may place a region inside the heap, where a shrinking break then unmaps it, so "fully mapped" does not extend to it.
- kernel/gpt.c, package transactions in kpm/kpm_os.c, kernel/unix_ipc.c and kernel/tty.c: their code does not keep the invariants one would state, or needs side conditions that say little.
- Manifest parsing in kernel/service.c and user_strnlen in kernel/memory.c: would only add easy members.
- Drivers, interrupts, networking, file systems, cryptography, the desktop apart from the blur, ports and system call dispatch: input/output or argument passing.
