# xv6 and its student extensions, modelled in Dafny

The repository is a set of operating-systems projects: a heap allocator for C programs, and two xv6 kernels, of which the
second changes the layout of a process's address space. This project models the algorithms those kernels and programs
depend on, each in the form in which the C code runs it, and proves what they are for. `dafny verify dfyconfig.toml`
checks the whole project.

Code that updates state in place is a class whose methods assign its fields, or a method on an array, with the C
function's loops and branches. Each method is proved against a function of the state before the call, and the lemmas
prove what the source promises about that function. Code that several processes run at once is a transition system over
its micro-steps, with an invariant for every reachable state; where that code is also sequential inside a critical
section (`bget`, `wait`, `exit`), a class carries the C loops and its methods are tied to the same functions that the
transition system uses.

| part | modules | what is proved about it |
|---|---|---|
| pipes, sleep/wakeup, spin locks | PipeRing, PipeProtocol, PipeProtocolLocks, PipeProtocolWakeups, PipeProtocolLostWakeup, PipeProtocolExact, PipeCalls | over all interleavings of readers, writers, closers, killers, timer ticks and schedulers on any number of CPUs: mutual exclusion, no panic, a FIFO under counter wrap-around, exactly when no wakeup is lost, and which bytes each call stores or gets |
| page tables and address spaces (lab4) | PageTables, FramePool, KernelMap, VirtualMemory, UserCopy, ExecArgs, AddressSpaces | frames are never shared or lost, the two-level table is a flat map, and the heap, gap and stack of every process stay where they belong through sbrk, page faults, fork, exec and wait |
| file system blocks | Bytes, FsLayout, FsState, FileSystem, ImageBuilder | the bitmap, the block maps and the zeroed free blocks agree; files are byte sequences; what mkfs wrote is what the kernel reads |
| buffer cache and disk queue | BufferList, BlockCache, BlockCacheSteps, BlockCacheRuns, BlockCacheWrites | the cache agrees with the completed writes over every run, bwrite writes what its holder stored, and bget recycles the buffer released longest ago |
| process table | ProcTable, ProcRuns, ProcKills, ProcSleeps | parents, zombies and pids over every run of fork, exit, wait, kill, sleep and wakeup; what wakes a sleeper; exactly when a child is born killed |
| tiling heap (lab3) | TilingHeap, MemAllocator | free and allocated blocks tile the region; the three fit policies; what is allocated determines the tiling, and freeing undoes allocating |
| user malloc | FreeRing, UserMalloc | the circular free list descends in address exactly once; malloc and free on it |
| shell parser | ShellParser, Shell, ShellGrammar, ShellWords | the parser accepts exactly the lines of a grammar, however they are spaced, and gives each its tree; no NUL lands in a word |
| regular expressions | Grep | match is sound and complete for a denotation of patterns, every one of which can be written |

Sizes that are a matter of configuration are parameters: the ring (any size that divides 2^32), the number of CPUs,
processes, buffers, inodes and blocks, the region and page size of the tiling heap, the end of the kernel image. Machine
words are unbounded integers with the wrap-around written out where the code can reach it.

## What the proofs found

Where the code does less than it seems to promise, the exact condition is a theorem.

- A writer that was killed returns -1 from a full pipe without waking the readers (`lab2/xv6/kernel/pipe.c:88-92`), so a
  reader can stay asleep on a full pipe. `PipeProtocolExact.WakeupIsLost` gives the run;
  `PipeProtocolExact.NoWakeupLostIff` shows that no interleaving loses a wakeup if and only if no single write is longer
  than the ring.
- `malloc` computes its block size in 32 bits and passes it to `sbrk` as an int: a request is rounded up soundly if and
  only if it is at most 0x7fff_fff0 bytes (`UserMalloc.RequestIsSoundIff`), and the largest request gets a block with no
  room at all.
- `growproc` lets a process shrink below 0x2000: the layout survives a call if and only if the new size is not in
  [0, 0x2000), with one harmless exception (`AddressSpaces.Spaces.Growproc`).
- `growstack` passes `deallocuvm` its two addresses in an order that frees nothing, so with a negative argument it changes
  the size only; and its check wraps for sizes that leave less than five pages below the stack, so that it can panic at
  "remap", unmap heap pages or record a size beyond USERTOP. When it keeps the layout is stated exactly, for every
  argument (`AddressSpaces.Spaces.Growstack`); the page-fault handler passes none of the others
  (`AddressSpaces.Spaces.PageFault`).
- `setupkvm` needs thirteen frames and gives none back when it fails part-way. `fork` therefore conserves frames unless
  it starts with at least 2 and fewer than 14 free ones (`KernelMap.Setupkvm`, `AddressSpaces.Spaces.Fork`).
- An image that `exec` loads is not checked against USERTOP. One that reaches into the last page below it ends in the
  panic of `mappages`, if a frame is free; one that ends lower keeps the layout if and only if it leaves six pages
  (`AddressSpaces.Spaces.Exec`).
- `kill` does not look at the state of the table entry it finds, and `allocproc` does not clear `killed`. A child leaves
  fork killed if and only if, since boot or since `wait` last reset its entry, some kill found that entry unused or with
  a child in the making (`ProcKills.BornKilledIff`). That takes the pid 0 of an entry never used or reset, the pid that a
  failed fork has left behind, or the pid of a child whose fork is under way, whether that fork then succeeds or fails.
  If every kill names a process, no free entry is ever marked (`ProcKills.GuardedKillsMarkNothing`); without that,
  one kill leads to such a child from every state with an unused entry and a process that is awake
  (`ProcKills.AnyRunCanBearKilled`, `ProcKills.EmbryoMarked`, `ProcRuns.BornKilled`).

## Model

| member | source | states |
|---|---|---|
| PipeProtocolExact.NoWakeupLostIff | lab2/xv6/kernel/pipe.c:79-126 | For every ring size that divides 2^32: no interleaving of any number of readers, writers, closers, killers and CPUs leaves a process asleep on a quiet pipe without reason, if and only if no write is longer than the ring. |
| PipeProtocolExact.WakeupIsLost | lab2/xv6/kernel/pipe.c:86-94 | For every ring and every longer write, a reachable state with the pipe lock free, the pipe not empty, and a reader asleep on it. |
| PipeProtocolExact.NothingOwed | lab2/xv6/kernel/pipe.c:86-94 | With writes no longer than the ring, no killed writer ever leaves waiting readers behind. |
| PipeProtocolExact.LosingRun | lab2/xv6/kernel/pipe.c:86-94 | With one write longer than the ring allowed, some reachable quiet state has a sleeper without reason. |
| PipeProtocolLostWakeup.PipeRuns | lab2/xv6/kernel/pipe.c:57-126 | In every reachable state: with the pipe lock free, and unless a killed writer has left a full pipe behind, a reader sleeps only on an empty pipe with writers, a writer only on a full one with readers; bytes taken out of the ring plus bytes in it are the bytes put into it, in order; what a reader has got is a suffix of what was delivered; once the page is freed nobody is inside a call. |
| PipeProtocolLostWakeup.ReaderAndWriterNeverBothSleep | lab2/xv6/kernel/pipe.c:79-126 | A reader and a writer are never asleep on the same quiet pipe. |
| PipeProtocolLostWakeup.StepKeepsWake | lab2/xv6/kernel/proc.c:331-385 | Each micro-step of the pipe calls, sleep, wakeup, kill, yield and the scheduler keeps the invariant that says which waiters the holder of the pipe lock still has to wake. |
| PipeProtocolLostWakeup.ShortWritesOweNothing | lab2/xv6/kernel/pipe.c:86-94 | A step of a pipe call body abandons no reader if no write is longer than the ring. |
| PipeProtocolLostWakeup.ReachableAllInv | lab2/xv6/kernel/pipe.c:57-126 | The locks, the bytes, the open ends and the waiters satisfy the joint invariant in every reachable state. |
| PipeProtocolWakeups.StepKeepsFifo | lab2/xv6/kernel/pipe.c:79-126 | Each micro-step keeps: the bytes that went into the ring are those that came out of it and those that it holds, in order. |
| PipeProtocolWakeups.StepKeepsEnds | lab2/xv6/kernel/pipe.c:57-77 | Each micro-step keeps the open flags and the page in step with the descriptors still in use: the page is freed after the last close only. |
| PipeProtocolLocks.NoPanicAndMutualExclusion | lab2/xv6/kernel/spinlock.c:24-115 | In every reachable state no panic of acquire, release, popcli or sched has been reached, each CPU has its interrupts off as often as it holds locks, and no two processes are inside the pipe lock, or inside ptable.lock. |
| PipeProtocolLocks.StepKeepsLockInv | lab2/xv6/kernel/proc.c:255-385 | Each micro-step keeps who holds which lock on which CPU, including the hand-over of ptable.lock between sched and the scheduler. |
| PipeProtocolLocks.SectionsAreLocked | lab2/xv6/kernel/spinlock.c:24-63 | A process inside a critical section runs on the CPU that holds that lock. |
| PipeRing.CountMeaning | lab2/xv6/kernel/pipe.c:86-107 | The full and empty tests on the wrapped counters mean what their comments say. |
| PipeRing.StoreAppends | lab2/xv6/kernel/pipe.c:96 | A store on a ring that is not full appends one byte and overwrites no unread one, wherever the counters stand in their 2^32 cycle. |
| PipeRing.FetchTakesOldest | lab2/xv6/kernel/pipe.c:121 | A fetch takes the oldest byte and leaves the others in order. |
| PipeRing.PipeBuffer.constructor | lab2/xv6/kernel/pipe.c:32-36 | A new pipe is empty with both ends open. |
| PipeRing.PipeBuffer.Fill | lab2/xv6/kernel/pipe.c:84-97 | The store loop appends the bytes it consumed, and stops only at the end of the data or at a full ring. |
| PipeRing.PipeBuffer.CopyOut | lab2/xv6/kernel/pipe.c:117-122 | The copy loop takes the front of the ring, and fewer bytes than asked only if it emptied the ring. |
| PipeCalls.WriteStoresItsBuffer | lab2/xv6/kernel/pipe.c:79-101 | Over every run: from the call of pipewrite on, the bytes that the steps of that call have appended to the bytes written are the front of its buffer, as far as it has come, whoever runs in between. |
| PipeCalls.WriteReturns | lab2/xv6/kernel/pipe.c:86-100 | A write returns with its whole buffer stored, or with the front of it stored, the pipe full and the read end closed or the caller killed. |
| PipeCalls.OneWriter | lab2/xv6/kernel/pipe.c:79-126 | With one writer, not killed and with the read end open: the bytes written and those that its call still has to store are the buffers it was given, one after another, and what readers have taken is the front of them. |
| PipeCalls.ReadGetsWhatItTakes | lab2/xv6/kernel/pipe.c:103-126 | Over every run: what a read has got is what its own steps have taken out of the pipe, in order. |
| PipeCalls.ReadReturns | lab2/xv6/kernel/pipe.c:109-125 | A read returns at most n bytes, fewer only if it emptied the pipe, none only at the end of file, or -1 with nothing taken, only from an empty pipe and only if killed. |
| PipeCalls.PageFreedIff | lab2/xv6/kernel/pipe.c:57-77 | With no close under way, the page is free if and only if both ends have been closed, and each end is open exactly until its close. |
| PipeCalls.WakeupDoes | lab2/xv6/kernel/proc.c:368-376 | The scan of wakeup makes exactly the sleepers on the channel of the call runnable. |
| PipeCalls.KillDoes | lab2/xv6/kernel/proc.c:390-408 | The scan of kill marks its victim, makes it runnable if it sleeps, and changes nobody else. |
| PageTables.OwnedApart | lab4/xv6 Vm Layout/kernel/vm.c:52-98 | No frame is used twice: as two page tables, two user pages, or by two directories. |
| PageTables.StoreUnowned | lab4/xv6 Vm Layout/kernel/kalloc.c:38-54 | A store into a frame that nobody uses changes no translation of any directory. |
| PageTables.StorePage | lab4/xv6 Vm Layout/kernel/vm.c:361-382 | A store into a user page changes no translation of any directory. |
| PageTables.AddTable | lab4/xv6 Vm Layout/kernel/vm.c:52-72 | Adding an empty page table changes no translation and no other directory entry. |
| PageTables.SetPte | lab4/xv6 Vm Layout/kernel/vm.c:77-98 | Writing one page-table entry changes exactly that translation of that directory: the two-level table is a flat map. |
| PageTables.MapUser | lab4/xv6 Vm Layout/kernel/vm.c:77-98 | A frame that the kernel holds becomes a user page and stays the only one of its kind. |
| PageTables.UnmapUser | lab4/xv6 Vm Layout/kernel/vm.c:259-279 | kfree of a page followed by clearing its entry removes exactly that translation and that owner. |
| PageTables.AddDir | lab4/xv6 Vm Layout/kernel/vm.c:134-149 | A zeroed frame is a directory that translates nothing, and the others do not change. |
| PageTables.DropDir | lab4/xv6 Vm Layout/kernel/vm.c:284-296 | What a directory without user pages still owns is its own frame and its page tables. |
| FramePool.Machine.constructor | lab4/xv6 Vm Layout/kernel/kalloc.c:24-32 | After kinit the free list is every frame from the end of the kernel to the end of memory, each once. |
| FramePool.Machine.Kalloc | lab4/xv6 Vm Layout/kernel/kalloc.c:60-70 | kalloc fails exactly if no frame is free, and otherwise moves one frame, unused and unheld, to the caller. |
| FramePool.Machine.Kfree | lab4/xv6 Vm Layout/kernel/kalloc.c:39-54 | kfree refuses exactly the addresses outside the pool, and otherwise fills the frame with ones and pushes it. |
| FramePool.Machine.FreeHeld | lab4/xv6 Vm Layout/kernel/kalloc.c:39-54 | Freeing a held frame changes no translation and no page of anybody. |
| FramePool.SameFree | lab4/xv6 Vm Layout/kernel/kalloc.c:39-70 | Conservation: frames that are free, held or owned partition the pool, so equal owners and holders mean an equal free set. |
| FramePool.Machine.Walk | lab4/xv6 Vm Layout/kernel/vm.c:52-72 | walkpgdir finds or makes the page table of one address, failing exactly if it is missing and may not or cannot be made; no translation changes. |
| FramePool.Machine.Mappages | lab4/xv6 Vm Layout/kernel/vm.c:77-98 | mappages maps its whole range, also the one that ends at 2^32, changing no other translation; it reaches remap only if a page of the range was mapped, and runs out exactly by the page tables that were missing. |
| FramePool.Machine.MapLoop | lab4/xv6 Vm Layout/kernel/vm.c:83-96 | The loop over pages, with the number of frames it takes. |
| FramePool.Machine.MapPage | lab4/xv6 Vm Layout/kernel/vm.c:84-92 | One turn: done, remap or out of memory, each with its exact condition. |
| KernelMap.Setupkvm | lab4/xv6 Vm Layout/kernel/vm.c:134-149 | setupkvm succeeds exactly with thirteen free frames, takes exactly those, maps the kernel and nothing below USERTOP, and makes the page table for the addresses below USERTOP; on failure it uses up what was free. |
| KernelMap.KmapFrames | lab4/xv6 Vm Layout/kernel/vm.c:122-131 | How many page tables each entry of kmap needs, given those before it. |
| KernelMap.KmapMaps | lab4/xv6 Vm Layout/kernel/vm.c:122-131 | Each entry of kmap adds its identity mapping, with its permission, to those before it. |
| KernelMap.KmapRange | lab4/xv6 Vm Layout/kernel/vm.c:138-147 | The unsigned size computed from each kmap entry is its page range, also for the entry that ends at 2^32. |
| VirtualMemory.Allocuvm | lab4/xv6 Vm Layout/kernel/vm.c:230-252 | allocuvm panics if and only if it has frames enough to get to a page of the range that is mapped; on an unmapped range it succeeds exactly if enough frames are free, adding zeroed pages and nothing else, and otherwise gives back every frame and leaves every translation and page as it was. |
| VirtualMemory.Deallocuvm | lab4/xv6 Vm Layout/kernel/vm.c:259-279 | deallocuvm removes exactly the present pages of its range, and its result and guard are those of the code. |
| VirtualMemory.RolledBack | lab4/xv6 Vm Layout/kernel/vm.c:240-244 | deallocuvm after a failed allocuvm takes back exactly what had been added. |
| VirtualMemory.NewPage | lab4/xv6 Vm Layout/kernel/vm.c:239-249 | kalloc, fill, mappages for one page: no frame, already mapped, or exactly one page more. |
| VirtualMemory.FreePage | lab4/xv6 Vm Layout/kernel/vm.c:267-276 | One turn of the deallocuvm loop, including pages that are not present. |
| VirtualMemory.Freevm | lab4/xv6 Vm Layout/kernel/vm.c:284-296 | freevm returns exactly the frames that the directory owned, and no other directory or page changes. |
| VirtualMemory.FreeTables | lab4/xv6 Vm Layout/kernel/vm.c:290-295 | The loop over the directory frees its page tables and then itself, although kfree overwrites what it frees. |
| UserCopy.Copyuvm | lab4/xv6 Vm Layout/kernel/vm.c:301-342 | copyuvm fails exactly with fewer frames than 13 and one per page; the child has the parent's pages, byte for byte, on frames of its own; a failure after setupkvm restores the free set, the owners and every byte. |
| UserCopy.CopyPages | lab4/xv6 Vm Layout/kernel/vm.c:309-320 | A copy loop succeeds exactly if a frame per page is free, and copies each page. |
| UserCopy.AllCopied | lab4/xv6 Vm Layout/kernel/vm.c:301-342 | After both loops the child has exactly the heap and stack pages of the parent with their bytes, and the parent and all others are as before. |
| UserCopy.Uva2ka | lab4/xv6 Vm Layout/kernel/vm.c:346-356 | Below USERTOP uva2ka never meets a missing page table, and returns 0 exactly for pages that are not present, else the frame that the page owns; on kernel pages it returns 0. |
| UserCopy.Copyout | lab4/xv6 Vm Layout/kernel/vm.c:362-382 | From any user address, or one that the kernel maps, copyout succeeds exactly if every page it touches is a user page that is present; then the bytes are there, and no other byte of any address space changes. |
| UserCopy.ChunkCopied | lab4/xv6 Vm Layout/kernel/vm.c:370-380 | Bytes stored in one user page show at one address of one process only. |
| ExecArgs.PushArgs | lab4/xv6 Vm Layout/kernel/exec.c:61-80 | For any argument list: success exactly if there are at most MAXARG arguments and everything fits above the first page that is not mapped; then argc, the null-terminated argv array and the NUL-terminated strings decode from the final stack pointer, and no byte outside the strings and that array has changed, in this process or another. |
| ExecArgs.PagesAbove | lab4/xv6 Vm Layout/kernel/vm.c:362-382 | Whether a copy near the stack pointer succeeds is decided by the lowest mapped page, also when the pointer has wrapped below 0. |
| ExecArgs.Finished | lab4/xv6 Vm Layout/kernel/exec.c:72-80 | The word block below the strings makes them a decodable argument list. |
| ExecArgs.StringOnce | lab4/xv6 Vm Layout/kernel/exec.c:61-70 | The string decoded at an address is unique. |
| ExecArgs.WordsThere | lab4/xv6 Vm Layout/kernel/exec.c:74-80 | A word array copied out byte by byte reads back word by word. |
| ExecArgs.ArgsKept | lab4/xv6 Vm Layout/kernel/exec.c:86-95 | The argument list depends on the bytes of user memory only, so freeing the old image keeps it. |
| AddressSpaces.Spaces.Userinit | lab4/xv6 Vm Layout/kernel/proc.c:76-106 | The first process has the layout, one page at 0x2000 with the program and zeroes after it, and took fifteen frames. |
| AddressSpaces.Spaces.Growproc | lab4/xv6 Vm Layout/kernel/proc.c:111-127 | For every n, 0 included: sbrk never reaches the panic of mappages; it succeeds if and only if n is 0, or n is positive, the gap remains and the frames are there, or n is negative and the new end is above 0 or, by wrap-around, at most five pages below it; it adds or removes exactly the pages in between with their frames, changes nothing for 0 or a refused n, undoes a failed allocation, and keeps the layout of all processes if and only if the new size is not in [0, 0x2000) or no page was left to lose. |
| AddressSpaces.Spaces.Growstack | lab4/xv6 Vm Layout/kernel/proc.c:130-147 | For every n: exactly when growstack panics at remap, exactly when it fails, and otherwise the new size, with the pages and frames added or given up in each case; the layout of all processes is kept if and only if the call is refused before it unmaps heap pages, changes no page, or leaves the five-page gap. |
| AddressSpaces.StackArith | lab4/xv6 Vm Layout/kernel/proc.c:131-135 | What the unsigned check and rounding come to: sizes that leave no room wrap and pass. |
| AddressSpaces.StackRange | lab4/xv6 Vm Layout/kernel/proc.c:136-138 | Between the stack and its new end allocuvm meets either nothing or the heap, and how many frames it uses until then. |
| AddressSpaces.StackRefused | lab4/xv6 Vm Layout/kernel/proc.c:136-138 | A failed growth leaves the layout as it was if and only if no heap page was in the range. |
| AddressSpaces.Spaces.PageFault | lab4/xv6 Vm Layout/kernel/trap.c:79-95 | A fault on an unmapped address is survived exactly if it lies five pages or more above the heap and below USERTOP and the frames are there; then the stack reaches down to it. The layout of all processes is kept either way, and the outcome is never the panic at remap. |
| AddressSpaces.Spaces.Fork | lab4/xv6 Vm Layout/kernel/proc.c:152-185 | fork fails exactly with fewer frames than 14 and one per page; the child has the sizes, trap frame and user bytes of the parent, and no byte of anybody else changes; frames are lost if and only if 2 to 13 were free. |
| AddressSpaces.Spaces.Reap | lab4/xv6 Vm Layout/kernel/proc.c:247-258 | wait frees exactly the kernel stack and the frames of the dead process, and no other process sees it. |
| AddressSpaces.StackAdded | lab4/xv6 Vm Layout/kernel/exec.c:52-57 | The image with its zeroed stack page, and the lowest page that its arguments may reach. |
| AddressSpaces.Spaces.Exec | lab4/xv6 Vm Layout/kernel/exec.c:52-102 | exec succeeds, fails or panics, each with its exact condition, for images of any size: it panics if and only if the image reaches into the page below USERTOP and a frame is free; on success sizes, directory and registers are those of the image with its arguments, every other byte of it as loaded, and the layout holds if and only if it ends at least six pages below USERTOP; on failure the process and all others are unchanged and the new image is gone. |
| AddressSpaces.GrownLayout | lab4/xv6 Vm Layout/kernel/proc.c:111-127 | Pages added between the old and the new break give the layout for the new break. |
| AddressSpaces.ShrunkLayout | lab4/xv6 Vm Layout/kernel/proc.c:120-123 | Pages removed down to a new break give the layout for it if and only if it is at least 0x2000. |
| AddressSpaces.DeeperLayout | lab4/xv6 Vm Layout/kernel/proc.c:136-138 | Pages added below the stack give the layout for the larger stack if and only if the gap remains. |
| AddressSpaces.ShallowerLayout | lab4/xv6 Vm Layout/kernel/proc.c:139-142 | With no page unmapped, another stack size is the layout only if it is the same one. |
| FsState.NamedOnce | lab2/xv6/kernel/fs.c:320-347 | Two slots, direct, indirect or indirect-block, of the same or of two inodes, never name the same block, and what they name is a marked data block. |
| FsState.AllocateKeepsInv | lab2/xv6/kernel/fs.c:54-76 | Marking an unmarked block keeps the invariant, and the block is all zero and named by nobody. |
| FsState.LinkInInode | lab2/xv6/kernel/fs.c:325-335 | Storing a fresh block in an inode changes that slot only; a fresh indirect block has no entries. |
| FsState.LinkInIndirect | lab2/xv6/kernel/fs.c:338-342 | Storing a fresh block in an indirect block changes that slot only. |
| FsState.WriteKeepsInv | lab2/xv6/kernel/fs.c:438-443 | Writing a data block changes no slot and no mark. |
| FsState.FreeKeepsInv | lab2/xv6/kernel/fs.c:80-97 | Zeroing and unmarking the block of one slot keeps the invariant for all others: free blocks stay zero. |
| FsLayout.PutWordWord | lab2/xv6/kernel/fs.c:337-342 | Little-endian words of an indirect block read back as written and leave the others alone. |
| FsLayout.SetBitAt | lab2/xv6/kernel/fs.c:62-66 | Setting a bit of the bitmap sets that bit only. |
| FsLayout.ClearBitAt | lab2/xv6/kernel/fs.c:89-94 | Clearing a bit clears that bit only. |
| FileSystem.Fs.Balloc | lab2/xv6/kernel/fs.c:54-76 | balloc returns the lowest unmarked block, marks it and no other, writes one bitmap block only, and fails exactly if no data block is unmarked. |
| FileSystem.Fs.Bfree | lab2/xv6/kernel/fs.c:80-97 | bfree panics exactly on an unmarked block, and otherwise zeroes and unmarks it and no other, writing only that block and one of the bitmap. |
| FileSystem.Fs.AddrOrAlloc | lab2/xv6/kernel/fs.c:325-335 | A block address of the inode, allocated if it was zero, and zeroed then; no other slot changes. |
| FileSystem.Fs.Bmap | lab2/xv6/kernel/fs.c:320-347 | bmap finds the block of a file block or allocates it, zeroed, with the indirect block if need be; a mapped one is returned without any change; it fails only beyond MAXFILE or on a full disk. |
| FileSystem.Fs.AllocEntry | lab2/xv6/kernel/fs.c:338-343 | An absent entry of the indirect block gets a zeroed block, and no other slot changes. |
| FileSystem.Fs.Itrunc | lab2/xv6/kernel/fs.c:353-380 | itrunc frees exactly the blocks of its inode, each marked until then, so that freeing free block is never reached; they are zero afterwards, and no other file, nor any block before the bitmap, changes. |
| FileSystem.Fs.FreeDirect | lab2/xv6/kernel/fs.c:359-364 | One direct block is freed and its address cleared. |
| FileSystem.Fs.FreeEntry | lab2/xv6/kernel/fs.c:369-372 | One entry of the indirect block is freed, once, although the indirect block still names it. |
| FileSystem.Fs.FreeIndirect | lab2/xv6/kernel/fs.c:366-376 | The entries, then the indirect block, are freed and its address cleared. |
| FileSystem.Fs.FreePointer | lab2/xv6/kernel/fs.c:373-375 | The indirect block itself is freed, after its entries. |
| FileSystem.Fs.Readi | lab2/xv6/kernel/fs.c:395-418 | readi returns the slice of the file's byte sequence, clipped at its end, fails exactly beyond the end or on overflow, and changes nothing. |
| FileSystem.Fs.WriteBlock | lab2/xv6/kernel/fs.c:439-443 | One turn of writei: the bytes appear at their offset, and no other byte of this or another file changes. |
| FileSystem.Fs.WriteBlocks | lab2/xv6/kernel/fs.c:438-444 | writei's loop writes all of its bytes or stops on a full disk. |
| FileSystem.Fs.Writei | lab2/xv6/kernel/fs.c:422-451 | writei is splice on the byte sequence, clipped at the largest file; other files keep their bytes and inodes, and the superblock stays; afterwards the inode on disk is the one in core, although iupdate runs only if the size grows. |
| FileSystem.EntryAllocated | lab2/xv6/kernel/fs.c:338-342 | After an allocation and the write of the indirect block, slots, data and zeroed free blocks are as they must be. |
| FileSystem.MappedBytes | lab2/xv6/kernel/fs.c:320-347 | Mapping a file block, with zeroed blocks, changes no byte of any file. |
| FileSystem.WrittenByte | lab2/xv6/kernel/fs.c:438-443 | Each byte of each file after one data block is rewritten. |
| FileSystem.WritingStep | lab2/xv6/kernel/fs.c:438-444 | One turn extends the written prefix, and needs no new inode on disk while it stays below the size. |
| FileSystem.WritingDone | lab2/xv6/kernel/fs.c:446-449 | After the loop and the size update, the files are the splice and the inode needs writing exactly when the size grew. |
| ImageBuilder.Image.constructor | lab2/xv6/tools/mkfs.c:68-95 | The new image has its superblock in block 1 and only empty files; Valid keeps both from then on. |
| ImageBuilder.Image.IAppend | lab2/xv6/tools/mkfs.c:329-375 | iappend appends its bytes to one file and leaves the others alone; it fails only if the file would exceed MAXFILE or the image is full. |
| ImageBuilder.Image.AppendLoop | lab2/xv6/tools/mkfs.c:341-372 | The loop of iappend, block by block. |
| ImageBuilder.Image.AddrFor | lab2/xv6/tools/mkfs.c:345-355 | A direct or indirect address, taken from freeblock if it is zero. |
| ImageBuilder.Image.BlockFor | lab2/xv6/tools/mkfs.c:342-364 | The block of a file block, found or taken through the indirect block. |
| ImageBuilder.Image.EntryFor | lab2/xv6/tools/mkfs.c:357-362 | An entry of the indirect block is taken and the indirect block written. |
| ImageBuilder.Image.Balloc | lab2/xv6/tools/mkfs.c:311-324 | The bitmap written last marks exactly the blocks below freeblock, all later blocks are zero, and the image satisfies the kernel's invariant; it asserts exactly if more than one bitmap block is needed. |
| ImageBuilder.Mount | lab2/xv6/kernel/fs.c:29-36 | Mounted by the kernel, which reads the geometry from the superblock on the disk, every file of a finished image is exactly the bytes that iappend was given. |
| ImageBuilder.MarkedToMarks | lab2/xv6/tools/mkfs.c:311-324 | The bitmap loop marks a block if and only if it is below freeblock. |
| ImageBuilder.MarkedToData | lab2/xv6/tools/mkfs.c:311-324 | Marking at the end gives what marking block by block would have given: it commutes with all data writes. |
| ImageBuilder.MarkedToAll | lab2/xv6/tools/mkfs.c:311-324 | Marks and zeroes of the finished image, for all blocks. |
| ImageBuilder.SuperWords | lab2/xv6/tools/mkfs.c:73-75 | The superblock reads back with the three numbers written. |
| ImageBuilder.EmptyImage | lab2/xv6/tools/mkfs.c:86-91 | A zeroed image with its superblock is a file system of empty files. |
| ImageBuilder.SlotTaken | lab2/xv6/tools/mkfs.c:345-355 | Taking freeblock for a direct or indirect address keeps the kernel's invariant. |
| ImageBuilder.EntryTaken | lab2/xv6/tools/mkfs.c:358-362 | Taking freeblock for an entry of the indirect block keeps the kernel's invariant. |
| ImageBuilder.ChunkStored | lab2/xv6/tools/mkfs.c:365-371 | One chunk stored extends the file under construction and no other. |
| ImageBuilder.AppendDone | lab2/xv6/tools/mkfs.c:373-374 | With the size updated, the file is the old one and the bytes. |
| BlockCacheRuns.RunInv | lab2/xv6/kernel/bio.c:61-137 | The invariant of buffers, holders, disk queue and disk holds in every state of every run, with any number of processes and buffers and interrupts at any time. |
| BlockCacheRuns.StepKeepsInv | lab2/xv6/kernel/bio.c:61-137 | Each step of bread, bwrite, brelse, iderw and the interrupt keeps it. |
| BlockCacheRuns.ReadsAreCurrent | lab2/xv6/kernel/bio.c:96-105 | A held buffer that its holder has not changed is valid and equals the last completed bwrite of its sector. |
| BlockCacheRuns.BreadReturnsItsSector | lab2/xv6/kernel/bio.c:96-105 | When the bread of a sector returns, whatever ran in between, its caller holds a buffer of that sector with the data of the last completed bwrite to it, or of the disk before any. |
| BlockCacheRuns.FetchStep | lab2/xv6/kernel/bio.c:61-105 | Each step, of this process or another, keeps who is fetching a sector on its way to a buffer of that sector. |
| BlockCacheRuns.OneHolderOneBuffer | lab2/xv6/kernel/bio.c:61-93 | At most one buffer per sector and one holder per buffer. |
| BlockCacheRuns.RecyclingLosesNothing | lab2/xv6/kernel/bio.c:82-91 | The buffer that bget recycles is clean, its data, if valid, is on the disk, and it is the idle one released longest ago. |
| BlockCacheRuns.RequestsAreProper | lab2/xv6/kernel/ide.c:128-133 | iderw is called for held buffers that need reading or writing, so its panics, and those of bwrite and brelse, are not reached. |
| BlockCacheRuns.SleepersAreOwedAWakeup | lab2/xv6/kernel/bio.c:70-73 | Whoever sleeps in bget sleeps on a held buffer, and whoever sleeps in iderw on one that is still queued. |
| BlockCacheRuns.NoBuffersMeansAllHeld | lab2/xv6/kernel/bio.c:82-92 | bget panics exactly if every buffer is held and none has the sector. |
| BlockCacheWrites.BwriteWritesItsData | lab2/xv6/kernel/bio.c:108-115 | Over every run: when bwrite returns, exactly one write of its sector has been completed since the call, of the data the buffer held then; that data is on the disk and still in the buffer. |
| BlockCacheWrites.StoredIsWritten | lab2/xv6/kernel/bio.c:96-115 | What a holder stores in its buffer and then writes, storing nothing else in between, is what the disk has when bwrite returns. |
| BlockCacheWrites.HeldDataStays | lab2/xv6/kernel/bio.c:61-137 | Nobody but its holder changes a buffer: its sector and data stay the same over any run in which the holder does not touch it. |
| BlockCacheWrites.ModifyDoes | lab2/xv6/kernel/bio.c:96-105 | What the holder stores is in its buffer, and no other buffer, the disk or the log changes. |
| BlockCacheWrites.BgetMeans | lab2/xv6/kernel/bio.c:61-93 | What each outcome of a pass of bget means: the only buffer of the sector, idle or busy, or, if there is none, an idle one. |
| BlockCacheWrites.IderwReturns | lab2/xv6/kernel/ide.c:91-154 | From every state of every run, interrupts and its own steps alone bring a process out of iderw. |
| BlockCacheSteps.InitialInv | lab2/xv6/kernel/bio.c:39-56 | binit's state satisfies the invariant. |
| BlockCacheSteps.KeepSleep | lab2/xv6/kernel/bio.c:70-73 | A pass of bget that finds the sector busy, or no buffer, keeps the invariant. |
| BlockCacheSteps.KeepCached | lab2/xv6/kernel/bio.c:69-80 | A pass that finds the sector cached and idle keeps it. |
| BlockCacheSteps.KeepRecycled | lab2/xv6/kernel/bio.c:82-91 | A pass that recycles keeps it: still one buffer per sector. |
| BlockCacheSteps.KeepStart | lab2/xv6/kernel/ide.c:137-145 | Appending a request, and starting the disk if the queue was empty, keeps it. |
| BlockCacheSteps.KeepResume | lab2/xv6/kernel/ide.c:149-151 | A turn of the wait loop keeps it. |
| BlockCacheSteps.KeepModify | lab2/xv6/kernel/bio.c:108-115 | Changing the data of a held buffer keeps it. |
| BlockCacheSteps.KeepBwrite | lab2/xv6/kernel/bio.c:108-115 | bwrite keeps it; what it writes is BlockCacheWrites.BwriteWritesItsData. |
| BlockCacheSteps.KeepBrelse | lab2/xv6/kernel/bio.c:118-137 | brelse keeps it: the ring stays in the order of release. |
| BlockCacheSteps.KeepInterrupt | lab2/xv6/kernel/ide.c:91-118 | Completion of the request at the head, and start of the next, keeps it. |
| BlockCacheSteps.MoveByRelease | lab2/xv6/kernel/bio.c:126-131 | Moving the released buffer to the front keeps the ring sorted by time of release. |
| BufferList.Lists.constructor | lab2/xv6/kernel/bio.c:39-56 | binit links all buffers into one ring, the last first. |
| BufferList.Lists.LinkAll | lab2/xv6/kernel/bio.c:47-55 | The loop of binit. |
| BufferList.Lists.Brelse | lab2/xv6/kernel/bio.c:118-137 | brelse panics exactly on a buffer that is not busy; otherwise the buffer becomes idle and first in the ring, the others keeping their order. |
| BufferList.Lists.Rewire | lab2/xv6/kernel/bio.c:126-131 | Six pointer assignments move one buffer to the front of the ring, whichever it is, and both directions stay linked. |
| BufferList.Lists.Bget | lab2/xv6/kernel/bio.c:61-93 | One pass of bget: the sector's buffer, or the last idle one of the ring, or sleep, or panic, with the new flags. |
| BufferList.Lists.Find | lab2/xv6/kernel/bio.c:69-80 | The forward walk finds the buffer with the key, if there is one. |
| BufferList.Lists.FindIdle | lab2/xv6/kernel/bio.c:82-91 | The backward walk finds the last idle buffer, if there is one. |
| BufferList.Lists.Append | lab2/xv6/kernel/ide.c:137-141 | iderw appends at the end of the disk queue. |
| BufferList.Lists.TakeFirst | lab2/xv6/kernel/ide.c:97-102 | ideintr takes the head of the disk queue. |
| BufferList.MoveKeepsRing | lab2/xv6/kernel/bio.c:126-131 | A move to the front is a permutation of the ring. |
| BufferList.Unlinked | lab2/xv6/kernel/bio.c:126-127 | Unlinking any buffer leaves a doubly linked ring of the others. |
| BufferList.PushedFront | lab2/xv6/kernel/bio.c:128-131 | Linking a buffer behind the head puts it first. |
| BufferList.OldestIsLast | lab2/xv6/kernel/bio.c:82-91 | No idle buffer lies behind the one chosen. |
| BufferList.WithoutAt | lab2/xv6/kernel/bio.c:126-127 | Taking an element out of a ring of distinct buffers removes its place and keeps the order of the rest. |
| ProcRuns.RunInv | lab2/xv6/kernel/proc.c:127-246 | The invariant of states, parents, channels and pids holds in every state of every run. |
| ProcRuns.StepKeepsInv | lab2/xv6/kernel/proc.c:127-408 | Each step of fork, exit, wait, kill, sleep, wakeup and the scheduler keeps it. |
| ProcRuns.ParentsLive | lab2/xv6/kernel/proc.c:165-203 | Every runnable, running, sleeping or zombie process but init has a parent that is neither unused nor a zombie, and init lives. |
| ProcRuns.NoZombieIsMissed | lab2/xv6/kernel/proc.c:207-246 | The parent of a zombie is not asleep in wait. |
| ProcRuns.ReapedOnce | lab2/xv6/kernel/proc.c:207-246 | Every exit is recorded once and reaped at most once; until it is reaped, the process is in the table as a zombie. |
| ProcRuns.PidsUnique | lab2/xv6/kernel/proc.c:33-72 | Pids of used entries differ from all others in the table and from every pid reaped before. |
| ProcRuns.WaitGivesUp | lab2/xv6/kernel/proc.c:237-241 | wait returns -1 exactly without children, or killed with no zombie child. |
| ProcKills.BornKilledIff | lab2/xv6/kernel/proc.c:390-408 | In every run with a table of any size, a child leaves fork killed if and only if some kill found its entry unused or in the making since boot or since wait last reset it. |
| ProcKills.FreeMarkedIff | lab2/xv6/kernel/proc.c:33-48 | The same for the mark of any entry that is unused or in the making, at any time. |
| ProcKills.GuardedKillsMarkNothing | lab2/xv6/kernel/proc.c:390-408 | As long as every kill names a pid whose first entry is a process, no free entry is ever marked and no child is born killed. |
| ProcKills.SomeKillMarksIff | lab2/xv6/kernel/proc.c:398-405 | A running process can mark a free entry with one kill if and only if the table has an entry that is unused or in the making. |
| ProcKills.ChildBornKilled | lab2/xv6/kernel/proc.c:390-408 | From every state of every run with an unused entry and a process in user code, four steps lead to a child born killed, whatever stale pid or 0 the entry has. |
| ProcKills.AnyRunCanBearKilled | lab2/xv6/kernel/proc.c:390-408 | The same from any process that is awake, wherever in fork or wait it is. |
| ProcKills.EmbryoMarked | lab2/xv6/kernel/proc.c:137-157 | A kill of the pid of a child in the making leaves its mark, whether the fork succeeds or fails for want of memory. |
| ProcKills.MarkStep | lab2/xv6/kernel/proc.c:33-408 | What each step does to the mark of an entry, and that only wait makes an entry free again that was a process. |
| ProcKills.WaitReturns | lab2/xv6/kernel/proc.c:212-245 | A process woken inside wait always leaves it on its next pass: it has a zombie child or has been killed. |
| ProcKills.StepKeepsWaitOk | lab2/xv6/kernel/proc.c:165-246 | Each step keeps the reason for that. |
| ProcSleeps.KillDoes | lab2/xv6/kernel/proc.c:390-408 | kill marks the first entry with the pid, makes it runnable if it sleeps, leaves its state otherwise, and changes no other entry. |
| ProcSleeps.KilledWaiterLeaves | lab2/xv6/kernel/proc.c:236-245 | A process killed while asleep in wait runs again and is out of wait after its next pass, from every state of every run. |
| ProcSleeps.WakeupDoes | lab2/xv6/kernel/proc.c:368-385 | wakeup makes exactly the sleepers on its address runnable, whatever the address, and changes nothing else. |
| ProcSleeps.ExitDoes | lab2/xv6/kernel/proc.c:165-203 | Every entry after exit: the caller a zombie, its children init's, its parent and, for a zombie among the children, init woken if asleep in wait, nothing else changed. |
| ProcSleeps.SleepStep | lab2/xv6/kernel/proc.c:331-408 | A sleeper stays asleep on its address through every step but a wakeup on it, a kill that finds it or an exit that it waits for, and those make it runnable. |
| ProcSleeps.SleepsOn | lab2/xv6/kernel/proc.c:331-364 | Over every run: who is asleep stays asleep on the same address until a step wakes it. |
| ProcSleeps.WakesUp | lab2/xv6/kernel/proc.c:368-408 | And the first step that wakes it makes it runnable. |
| ProcSleeps.ForkMakesChild | lab2/xv6/kernel/proc.c:127-160 | Over every run, whatever others do in between: when fork ends, the entry that it took is a runnable child with the pid that was next and the caller for parent. |
| ProcSleeps.BuildStep | lab2/xv6/kernel/proc.c:137-157 | No step of another process disturbs a child in the making. |
| ProcRuns.BornKilled | lab2/xv6/kernel/proc.c:390-408 | The shortest run, on a table of two: kill of pid 0 marks the free entry, and the child made there is born killed. The exact condition is ProcKills.BornKilledIff. |
| ProcRuns.InitialInv | lab2/xv6/kernel/proc.c:75-102 | userinit's state satisfies the invariant. |
| ProcRuns.KeepSimilar | lab2/xv6/kernel/proc.c:255-408 | Scheduling, yield, wakeup and kill keep it. |
| ProcRuns.KeepAlloc | lab2/xv6/kernel/proc.c:33-48 | allocproc keeps it: the pid is fresh and the entry was nobody's child. |
| ProcRuns.KeepFail | lab2/xv6/kernel/proc.c:138-143 | A failed fork keeps it, with the stale pid left behind. |
| ProcRuns.KeepLink | lab2/xv6/kernel/proc.c:145 | Setting the parent outside ptable.lock keeps it. |
| ProcRuns.KeepDone | lab2/xv6/kernel/proc.c:157 | Making the child runnable keeps it. |
| ProcRuns.KeepExit | lab2/xv6/kernel/proc.c:165-203 | exit keeps it. |
| ProcRuns.ExitPlace | lab2/xv6/kernel/proc.c:186-197 | exit leaves nobody asleep in wait with a zombie child: its wakeups reach its parent and, for inherited zombies, init. |
| ProcRuns.KeepReap | lab2/xv6/kernel/proc.c:221-234 | Reaping a zombie keeps it: a zombie has no children. |
| ProcRuns.KeepWaitOut | lab2/xv6/kernel/proc.c:236-245 | Giving up and going to sleep in wait keep it. |
| ProcRuns.KeepSleepOn | lab2/xv6/kernel/proc.c:331-364 | Sleeping on other channels keeps it. |
| ProcTable.PTable.Alloc | lab2/xv6/kernel/proc.c:33-48 | The first unused entry becomes an embryo with the next pid, killed left as it was. |
| ProcTable.PTable.WakeAll | lab2/xv6/kernel/proc.c:368-376 | Exactly the sleepers on the channel become runnable. |
| ProcTable.PTable.Exit | lab2/xv6/kernel/proc.c:183-202 | The loop of exit, with its wakeups in between, gives the children to init, wakes the parent and, if there is a zombie among them, init. |
| ProcTable.PTable.Wait | lab2/xv6/kernel/proc.c:212-245 | One pass of wait reaps the first zombie child, gives up or sleeps. |
| ProcTable.PTable.Kill | lab2/xv6/kernel/proc.c:390-408 | The first entry with the pid is marked, and runnable if it was asleep; its state is kept otherwise, and no other entry changes. |
| ProcTable.AdoptedAll | lab2/xv6/kernel/proc.c:189-197 | Waking init once per inherited zombie, in between, is the same as once. |
| MemAllocator.Allocator.MemInit | lab3/Malloc and Free/mem.c:107-139 | The region is one free block of whole pages; refused exactly on a bad size, a second call or no memory. |
| MemAllocator.Allocator.MemAlloc | lab3/Malloc and Free/mem.c:141-233 | For every request of at least one byte: refused exactly if no free block fits; otherwise the policy's block is carved, and no byte of an allocated block is written. |
| MemAllocator.Allocator.FindFirst | lab3/Malloc and Free/mem.c:158-166 | First fit finds the lowest-address block that fits, or none does. |
| MemAllocator.Allocator.FindBest | lab3/Malloc and Free/mem.c:168-181 | Best fit finds the lowest-address smallest block that fits, or none does. |
| MemAllocator.Allocator.FindWorst | lab3/Malloc and Free/mem.c:183-196 | Worst fit finds the highest-address largest block that fits, or none does. |
| MemAllocator.Allocator.CarveNode | lab3/Malloc and Free/mem.c:206-232 | Split or absorb, unlink and write the header: the list and headers describe the carved tiling. |
| MemAllocator.Allocator.MemFree | lab3/Malloc and Free/mem.c:286-340 | A live pointer is released and merged with both free neighbours, no byte of another allocated block being written; any other pointer without the magic number is refused with no change. |
| MemAllocator.Allocator.Store | lab3/Malloc and Free/mem.c:229-232 | Whatever the program stores behind the header of a block it was given, the list, the headers and the other blocks are not affected. |
| MemAllocator.Allocator.FindNeighbours | lab3/Malloc and Free/mem.c:300-312 | The walk finds the last free node before the block and the first after it. |
| MemAllocator.Allocator.FreeBlock | lab3/Malloc and Free/mem.c:300-339 | The list and headers describe the tiling with the block released. |
| MemAllocator.Allocator.JoinLeft | lab3/Malloc and Free/mem.c:313-328 | The block becomes a node, merged into or linked behind the one before it. |
| MemAllocator.Allocator.JoinRight | lab3/Malloc and Free/mem.c:329-336 | The node absorbs the one after it exactly if they touch. |
| MemAllocator.Allocator.OutputAllocated | lab3/Malloc and Free/mem.c:235-245 | The header walk over a gap stops exactly at its end, having visited each allocated block once. |
| MemAllocator.Allocator.MemDump | lab3/Malloc and Free/mem.c:247-284 | The dump lists every block of the region once, in address order, with its state; nothing if no block is free. |
| MemAllocator.Allocator.OutputGap | lab3/Malloc and Free/mem.c:255-275 | The blocks between two nodes, in order. |
| MemAllocator.CarvedSummary | lab3/Malloc and Free/mem.c:206-232 | The writes of an allocation give memory that describes the carved tiling, and touch free blocks only. |
| MemAllocator.ReleasedSummary | lab3/Malloc and Free/mem.c:313-339 | The writes of a release give memory that describes the released tiling. |
| MemAllocator.ReleasedTouchesFreeOnly | lab3/Malloc and Free/mem.c:313-339 | They touch no other allocated block. |
| TilingHeap.CoversOnce | lab3/Malloc and Free/mem.c:107-340 | Every byte of the region belongs to exactly one block. |
| TilingHeap.Ordered | lab3/Malloc and Free/mem.c:107-340 | Blocks lie in address order without overlap. |
| TilingHeap.CarvedTiles | lab3/Malloc and Free/mem.c:206-232 | Carving keeps the tiling, with no two free blocks adjacent and no byte lost. |
| TilingHeap.ReleasedTiles | lab3/Malloc and Free/mem.c:313-339 | Releasing keeps it. |
| TilingHeap.ReleaseUndoesCarve | lab3/Malloc and Free/mem.c:141-340 | Freeing what was just allocated restores the tiling exactly. |
| TilingHeap.CarvedUses | lab3/Malloc and Free/mem.c:206-232 | An allocation adds exactly one block in use: at the start of the chosen one, of the rounded length, or all of it if no node fits behind. |
| TilingHeap.ReleasedUses | lab3/Malloc and Free/mem.c:313-339 | A release takes exactly that block out of use. |
| TilingHeap.UsesDetermine | lab3/Malloc and Free/mem.c:107-340 | What is in use determines the whole tiling, free blocks included. |
| TilingHeap.AllFreeIsOneBlock | lab3/Malloc and Free/mem.c:286-340 | With everything freed the region is the single initial block. |
| UserMalloc.UserHeap.Malloc | lab2/xv6/user/umalloc.c:64-90 | For every request that its arithmetic rounds up soundly: at most one sbrk, none if a block fits; 0 only if that sbrk failed, with nothing changed; otherwise at least nbytes, apart from every live and free block, from the tail of the next fit after freep, with no unit lost and no word of a live block written. |
| UserMalloc.RequestIsSoundIff | lab2/xv6/user/umalloc.c:69 | The rounding and the argument of sbrk are sound in 32 bits if and only if nbytes is at most 0x7fff_fff0. |
| UserMalloc.HugeRequestGetsNothing | lab2/xv6/user/umalloc.c:69 | The largest request is rounded to one unit: a header without room. |
| UserMalloc.UserHeap.OneDescent | lab2/xv6/user/umalloc.c:25-44 | Following the circle, the address falls exactly once, from the last block to base. |
| UserMalloc.UserHeap.Free | lab2/xv6/user/umalloc.c:25-44 | free puts the block in its gap, joined with its neighbours where they touch; exactly its bytes become free, and no word of another live block is written. |
| UserMalloc.UserHeap.Store | lab2/xv6/user/umalloc.c:10-22 | Whatever the program stores behind the header of a block it was given, the list, the headers and the other blocks are not affected. |
| UserMalloc.UserHeap.FindGap | lab2/xv6/user/umalloc.c:30-32 | The search terminates from wherever freep rests, at the block's only gap. |
| UserMalloc.UserHeap.Morecore | lab2/xv6/user/umalloc.c:47-61 | morecore adds at least 4096 units from one sbrk, findable at freep or right behind it, or changes nothing and returns 0. |
| UserMalloc.UserHeap.TakeBlock | lab2/xv6/user/umalloc.c:75-84 | The block found is unlinked, or its tail cut off, and freep rests before it. |
| FreeRing.GapOfIsGap | lab2/xv6/user/umalloc.c:30-32 | Every block apart from the free ones has exactly one gap. |
| FreeRing.InsertedOk | lab2/xv6/user/umalloc.c:33-43 | Joining and linking keeps blocks ordered, disjoint and never adjacent. |
| FreeRing.InsertedTotal | lab2/xv6/user/umalloc.c:33-43 | No unit is lost by free. |
| FreeRing.InsertedBytes | lab2/xv6/user/umalloc.c:33-43 | free makes exactly the bytes of the block free. |
| FreeRing.TakenBytes | lab2/xv6/user/umalloc.c:75-82 | malloc takes exactly the bytes of the block it returns, all of which were free. |
| FreeRing.BytesDetermine | lab2/xv6/user/umalloc.c:25-90 | The free bytes determine the whole list: order, joins and sizes. |
| FreeRing.InsertedLinked | lab2/xv6/user/umalloc.c:33-43 | The pointers and sizes written by free describe that list. |
| FreeRing.TakenOk | lab2/xv6/user/umalloc.c:75-82 | Unlinking or splitting keeps the list ordered, disjoint and never adjacent. |
| FreeRing.TakenTotal | lab2/xv6/user/umalloc.c:75-82 | No unit is lost by malloc. |
| FreeRing.TakenLinked | lab2/xv6/user/umalloc.c:75-82 | The pointers and sizes written by malloc describe that list. |
| FreeRing.FreedKeepsLive | lab2/xv6/user/umalloc.c:25-44 | free leaves every word of other live blocks, header and payload, as it was. |
| FreeRing.TakenKeepsLive | lab2/xv6/user/umalloc.c:75-84 | malloc leaves every word of live blocks as it was, and its own block apart from them. |
| FreeRing.TakenIsLive | lab2/xv6/user/umalloc.c:75-84 | What malloc returns is apart from every free block, with its header in place. |
| ShellGrammar.ParsesIff | lab2/xv6/user/sh.c:327-445 | For every line: the parser panics unless the tokens of the line are a command of the grammar: simple commands of up to 9 words with redirections before, between and behind them, blocks in parentheses, pipes, background marks and lists. |
| ShellGrammar.LineParsesTo | lab2/xv6/user/sh.c:327-445 | And then it gives the tree that the grammar has for it: these words as arguments, these redirections around them in order and with their direction, pipes and lists grouped to the right. |
| ShellGrammar.TypedLineParses | lab2/xv6/user/sh.c:265-445 | Whatever white space is typed between the tokens of a command, needed only between words and after '>' before another, the line is parsed to its tree. |
| ShellGrammar.TypedTokens | lab2/xv6/user/sh.c:265-307 | However tokens are spaced, gettoken reads back those tokens, '>>' included. |
| ShellGrammar.LineIsSpelled | lab2/xv6/user/sh.c:265-307 | Every line is its tokens with white space between them. |
| ShellGrammar.SimpleAccepted | lab2/xv6/user/sh.c:415-445 | A simple command with its redirections, anywhere in a line, is parsed to exactly its words inside exactly its redirections. |
| ShellGrammar.RedirsAccepted | lab2/xv6/user/sh.c:374-396 | A run of redirections is read as those files with their directions, in order. |
| ShellGrammar.LastIsOutermost | lab2/xv6/user/sh.c:374-396 | The redirection typed last is the outermost node. |
| ShellGrammar.LineRead | lab2/xv6/user/sh.c:344-445 | Whatever the parser accepts anywhere in a line is the text of a command of the grammar, with its tree. |
| ShellGrammar.RoundTrip | lab2/xv6/user/sh.c:327-445 | Every command tree with legal words and at most 9 arguments is the tree of a line, and parsing that line returns it. |
| ShellWords.WordsAreStrings | lab2/xv6/user/sh.c:327-492 | After nulterminate, for every line that parses, every argv and file string is exactly its token: no NUL lands inside another. |
| ShellWords.LineWords | lab2/xv6/user/sh.c:344-445 | For every line, every word of the parsed command is a maximal run of word characters. |
| ShellWords.Nulterminate | lab2/xv6/user/sh.c:449-492 | nulterminate writes a NUL behind exactly the words of the tree. |
| ShellWords.CutAt | lab2/xv6/user/sh.c:449-492 | Each character of the buffer afterwards. |
| ShellParser.GetToken | lab2/xv6/user/sh.c:265-307 | A token lies in the line, is not empty before its end, and a word is a maximal run of word characters. |
| Shell.Gettoken | lab2/xv6/user/sh.c:265-307 | The pointer loop computes that token, and terminates on every line. |
| Shell.Peek | lab2/xv6/user/sh.c:310-319 | peek skips white space and tests the next character. |
| Shell.Parseredirs | lab2/xv6/user/sh.c:374-396 | The loop wraps the command in each redirection in turn, or reports the missing file. |
| Shell.Parseexec | lab2/xv6/user/sh.c:415-445 | The parser of simple commands and blocks, equal to the grammar function; it terminates on every line. |
| Shell.Parseargs | lab2/xv6/user/sh.c:428-443 | Its loop over arguments and redirections, with the limit of 10. |
| Shell.Parseblock | lab2/xv6/user/sh.c:399-412 | Parentheses, then redirections, or the panic. |
| Shell.Parsepipe | lab2/xv6/user/sh.c:361-371 | Right-associative pipes. |
| Shell.Parseline | lab2/xv6/user/sh.c:344-358 | Background marks and lists. |
| Shell.Parsecmd | lab2/xv6/user/sh.c:327-341 | The whole line must be used up, for every NUL-terminated line. |
| Grep.Match | lab2/xv6/user/grep.c:71-81 | match answers 1 exactly if some substring, or some prefix after a leading ^, is in the denotation of the pattern; it terminates for all inputs. |
| Grep.MatchHere | lab2/xv6/user/grep.c:84-95 | matchhere answers exactly whether a prefix of the text is in the denotation. |
| Grep.MatchStar | lab2/xv6/user/grep.c:98-105 | matchstar answers exactly whether some number of c, then a match of the rest, starts the text. |
| Grep.PlainMatches | lab2/xv6/user/grep.c:71-95 | A pattern of plain characters matches where it occurs in the text; with ^ at its beginning, with $ at its end, with both only the text itself. |
| Grep.ShowParse | lab2/xv6/user/grep.c:84-105 | Every pattern string is the writing of the items it is read as. |
| Grep.ParseShow | lab2/xv6/user/grep.c:84-105 | Items that can be written are read back as themselves. |
| Grep.StarSplits | lab2/xv6/user/grep.c:98-105 | A starred item denotes any number of its character before the rest. |
| Grep.SingleSplits | lab2/xv6/user/grep.c:92-93 | A literal or dot denotes one character before the rest. |
| Grep.EmptyItems | lab2/xv6/user/grep.c:86-91 | No items denote the empty string, at the end of the text if $ is there. |

## Left out

- Locks: taking a lock (pushcli, spin, xchg) is one step that waits until the lock is free, so a CPU that spins is not seen with its interrupts off, and memory is sequentially consistent.
- Scans of the process table (wakeup1, kill, wait, exit) are one step each, since they run under ptable.lock; the pipe protocol and the process-table runs are separate state machines.
- Overflow of nextpid and of the process counters; how soon a kill is noticed.
- MemAllocator.Allocator.MemFree: takes live pointers and pointers whose header does not hold the magic number; user data that happens to spell a header, and pointers freed before whose header is still there, are not modelled.
- MemAllocator.Allocator.MemAlloc: sizes of at least 1.
- MemAllocator.Allocator.MemInit: sizes that do not overflow an int when rounded up to a page.
- UserMalloc.UserHeap.Malloc: covers requests up to 0x7fff_fff0 bytes; beyond that the source's own arithmetic wraps, which RequestIsSoundIff states exactly.
- FileSystem.Fs.Balloc: a full disk ends in the panic; that the source may first hand out blocks behind the end of the disk, when the last bitmap block has bits left over, is not modelled.
- FileSystem: the buffer cache is an array of blocks here; the byte layout of inodes, device inodes, the inode cache, directories and path names are not part of this model.
- ImageBuilder.Image.IAppend: reports a full image, where the source writes past its end; the rounding of directory sizes and the walk over the host's directories are not modelled.
- PageTables: entries are records of present bit, frame and permissions rather than packed words; large pages, the TLB and switchuvm are not modelled.
- KernelMap.Setupkvm: the kernel's data section is taken to start on a page boundary, as lab4/xv6 Vm Layout/kernel/data.S aligns it; a failure part-way is modelled as it is, with its frames lost.
- AddressSpaces.Spaces.Exec: starts from a loaded image; reading the ELF file, loaduvm, open files and the process name are not modelled.
- UserCopy.Copyout: starts at a user address or on a page that the kernel maps; for other addresses uva2ka reads through a null pointer.
- FramePool.Machine.Mappages: user ranges are one aligned page each, which is all that the callers pass; kernel ranges are of any size. The same for MapLoop.
- VirtualMemory.Deallocuvm: the old size is a user address, as all callers pass.
- The operations on address spaces (FramePool to AddressSpaces) run one at a time. The conditions on the number of free frames are exact in that sense: with kalloc on other CPUs in between, the frames that count are those free when each kalloc is reached.
- BlockCacheRuns.ReadsAreCurrent: processes keep to the rule of use that a changed buffer is written before it is released, and ask for sectors that exist; disk errors, spurious interrupts and port I/O are left out.
- ProcRuns: the copying of open files and the current directory in fork, and clearing chan when sleep returns.
- Shell.Parseexec: argv is a list built by the loop and the tree is a value, so a node is not filled in after a redirection has been wrapped around it; printing of error messages, runcmd and getcmd are left out.
- Grep: grep's line buffer, which depends on how read cuts its input, is left out.
- Boot code, devices, console, printf, interrupts other than those above, and the user programs that only call the system.
