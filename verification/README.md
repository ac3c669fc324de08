# AtOS, modelled and proved in Dafny

AtOS is a small AArch64 kernel with a shell and a few programs. This project models its hardest parts and proves
what they are for. `dafny verify dfyconfig.toml` checks everything.

**Physical frames and translation tables** (`Words`, `Bytes`, `PageTree`, `FreeFrames`, `TreeLoops`, `TreeCopy`,
`TreePaths`, `UserMemory`, `PageAllocator`). RAM is an array of frames of 512 words, changed in place: the free list
runs through the free frames, the tables are trees in the same memory. `Owns(m, f, level, g)` counts how often frame
g occurs in the tree at f, and `Valid()` says that every managed frame is in exactly one place: on the list, or at one
place of one tree. `LeafAt` is the kernel's own walk, so "what is mapped" is a map from paths to descriptors, and
`UserByte` is what a program reads at an address. (A first table is not cleared: the tag of the free list stays in its
entry 0. The kernel takes its low bits `0b01` for no mapping; to the hardware they are a block descriptor with the
access flag clear. What is proved is about the kernel's walk.) Allocating, freeing, the recursive copy with its
rollback, the recursive teardown and the copy across pages are methods proved against these. Words are held as the
fields the kernel's masks select; the descriptor format is that of the Arm Architecture Reference Manual, DDI 0487,
section D8.3.

**The ELF loader, program arguments and address spaces** (`FrameCounts`, `ElfImage`, `ElfFormat`, `ElfLoader`,
`Arguments`, `AddressSpaces`). The loader's result is stated byte by byte for every page of the new space, those the
loader never writes included, and with the number of frames it takes. `ElfFormat` writes files out field by field, in
the order and the widths of chapters 4 and 5 of the System V gABI, and shows that what the kernel reads is what was
written. The argument layout written by the kernel and the reader in the user library are a printer and a parser; fork,
exec and exit are put together there.

**The life cycle of processes** (the `Lifecycle` files, `KernelTables`). One step is a timer tick, a system call, a
sleep or a wakeup inside the kernel, or a turn of the scheduler's idle loop. `Lifecycle` gives each step as a function
on the process table, the current slot, the stack slots and the live registers; `KernelTables` is the same with arrays
changed in place by the source's loops, each method proved to compute the model's step. `LifecycleInvariant` says what
every state keeps, and the remaining files prove it of every step and draw the consequences. Three of them say in
their own words, for each event, what a step leaves behind: `LifecycleSleepers` of the processes not in control,
`LifecycleAnswers` in the caller's registers and the kernel stacks, `LifecycleContexts` of the two sides of a fork.

**The whole kernel** (`KernelStackPages`, `StackRoom`, `PlacesInMemory`, `MachineStates`, `Machine`) is the process
tables and physical memory together, from boot through any sequence of exceptions, sleeps and wakeups.
`PlacesInMemory.Tied` says how the two belong together: a kernel stack slot is free exactly when its pages are
unmapped, and each space in use is a tree of its own with the pages of a user stack. Every run keeps that, and is a run
of `Lifecycle` on the same inputs. What `Lifecycle` takes as given, the L1 table of a fork, whether frames suffice and
what becomes of a load, is there what the allocator and the loader make of it, and no exception handled for one process
changes the address space of another.

**The blocking mutex** (`MutexProtocol`, `Spinlocks`) is a state machine over the steps of any number of processes,
interleaved in any way; the spinlock and the nesting of masked interrupts are classes.

**The shell's front end and Tetris** (`Shell`, `ShellLines`, `Tetris`, `TetrisMoves`) are classes whose methods compute
functions, about which the properties are proved. `ShellLines` writes command lines out byte by byte and reads them
back, every line of at most 255 bytes among them.

Results the code does not meet as one might expect, with the exact condition:

- The zeroing of a segment's memory past its file part adds the offset in the page twice (`src/kernel/paging.rs`, lines
  173-180, where line 287 has added it already). It zeroes what it should exactly when the file part ends on a page
  boundary (`ElfImage.ZeroesRightly`), and it leaves the frame exactly when `ElfImage.LeavesPage` holds. The bytes it
  leaves alone keep what the free list stored in the frame: they read zero whatever frames are free exactly when
  `ElfImage.ClearOfLink` holds (`ElfImage.BssAlwaysZero`), for given frames exactly when the bytes of a kernel address
  left among them are zero (`ElfImage.BssIsZero`). With a file part that ends 8 bytes past a page boundary the program
  reads a kernel address there (`ElfImage.KernelAddressLeft`).
- Init can stay blocked in wait beside a dead child, because taking over a dead child does not wake it: exactly when it
  has taken one over and no child it waits for has exited since (`LifecycleOrphans.UnnoticedSinceBoot`);
  `LifecycleOrphans.InitInheritsUnnoticed` is the single step, `LifecycleScene.InitCanBeLeft` a run of nine events that
  gets there. No other process can.
- A panic can be reached from user space, with a fork that lacks room, or frames for a kernel stack, and with an exec
  of a file the loader panics on. Which event panics at which of the modelled sites is exact
  (`LifecycleRuns.StepKeeps`), and when frames are lacking is too (`Machines.Machine.HandleException`);
  `LifecycleScene.ForkCanPanic` is a run of two forks that gets there. An exec never lacks frames for its kernel stack:
  the old space, freed before, leaves enough (`StackRoom.StackAfterTeardown`).
- An exec whose arguments `sys_exec` admits can fail on the 4096-byte buffer of `push_args_to_stack` after the old space
  is gone: 32 of 256 bytes do not fit (`ArgumentLayout.LongestNotAccepted`, `AddressSpaces.ReplaceSpace`,
  `LifecycleFork.ExecKeeps`).
- Clearing lines leaves a full row behind exactly when two full rows were adjacent (`Tetris.FullRowsLeft`);
  `Tetris.OneOfTwoStays` is a board that shows it.
- A file without a segment to load costs one frame: the L1 table taken stays behind (`ElfLoading.LoadElf`).
- The remark at lines 328-330 of `src/kernel/paging.rs` says that a copy that fails leaks frames. It does not
  (`PageAllocation.PageAllocator.DuplicateVaSpace`).

## Model

| member | source | states |
|---|---|---|
| Addresses.PathIsPageNumber | src/kernel/paging.rs:273-276 | two addresses select the same three table entries exactly when they agree on bits 12 to 38 |
| Words.EntryBits | src/kernel/paging.rs:476-510 | the number stored for a user page, bit by bit: PXN, NG, AF, inner shareable, read and write for EL0, normal memory, a page; and for a table |
| FreeFrames.FreeFrameIsEmptyTable | src/kernel/paging.rs:127 | a frame on the free list, used as a table without being cleared, maps nothing and owns only itself |
| PageAllocation.PageAllocator.GetFreeFrame | src/kernel/paging.rs:523-534 | pops the first frame of the list, or reports that it is empty; list, links and count stay consistent |
| PageAllocation.PageAllocator.AddFreeFrame | src/kernel/paging.rs:542-550 | any address inside a frame puts that frame, zeroed and linked, first on the list |
| PageAllocation.PageAllocator.InitFrames | src/kernel/paging.rs:553-558 | exactly the frames of the given range join the empty list, and the total is their number |
| PageAllocation.PageAllocator.Translate | src/kernel/paging.rs:263-289 | the physical address of a mapped page plus the offset; nothing for an unmapped one |
| PageAllocation.PageAllocator.AllocPage | src/kernel/paging.rs:458-519 | exactly the page asked for becomes bound, to a frame that was free, with the user attributes and the words it had on the list, and exactly the tables on the way exist beside those there were; it fails exactly when the page is mapped or frames are fewer than needed; each frame stays in one place |
| PageAllocation.PageAllocator.FreePage | src/kernel/paging.rs:424-453 | exactly the page given is unbound and its frame goes to the list; nothing happens if it was not mapped |
| TreePaths.LeafInjective | src/kernel/paging.rs:506-510 | two pages of one space never share a frame |
| TreePaths.AllocAfterTable | src/kernel/paging.rs:491-504 | making the missing tables first does not change what the allocation as a whole does to any other page |
| PageAllocation.PageAllocator.FreePageTable | src/kernel/paging.rs:384-419 | the frames of the tree, root, tables and pages, each exactly once, are free again; no other frame changes |
| PageAllocation.PageAllocator.FreeTree | src/kernel/paging.rs:398-419 | the recursion over one table: it terminates and returns precisely the tree's frames |
| TreeLoops.TornNext | src/kernel/paging.rs:406-416 | after the loop has passed an entry, what is left of the tree and the free list together are what they were |
| PageAllocation.PageAllocator.DuplicateVaSpace | src/kernel/paging.rs:295-326 | succeeds exactly when the frames suffice, with a disjoint deep copy; otherwise every frame popped is free again and nothing else changed, so the remark at lines 328-330 does not describe this code |
| PageAllocation.PageAllocator.DuplicateTree | src/kernel/paging.rs:331-382 | the recursion: a copy when it succeeds, and in any case a tree made of popped frames only |
| TreeCopy.CopyTranslates | src/kernel/paging.rs:295-382 | a copy translates exactly the same paths, with equal attribute bits, to pages with equal contents |
| TreeCopy.CopyFinished | src/kernel/paging.rs:305-325 | the finished copy joins the partition of all frames, disjoint from the parent's |
| TreeCopy.CopyUndone | src/kernel/paging.rs:319-323 | after a rollback the free frames are those of before, in any order, and no other frame changed |
| TreeCopy.AttachGrown | src/kernel/paging.rs:349-362 | a table linked before it is filled keeps the half-built copy one tree of popped frames |
| AddressSpaces.ForkedReads | src/kernel/processes.rs:205-205 | a forked child is mapped exactly where its parent is, with the same attributes, and reads the same bytes |
| AddressSpaces.OthersReadTheSame | src/kernel/paging.rs:424-519 | whatever an operation does in one space and to free frames, every other program reads what it read |
| AddressSpaces.FramesNotShared | src/kernel/paging.rs:349-376 | no two pages, of one space or of two, lie in the same frame |
| AddressSpaces.CopyThenTeardown | src/kernel/paging.rs:295-419 | a copy followed by its teardown leaves the same frames free and all others unchanged |
| AddressSpaces.Operate | src/kernel/processes.rs:201-262 | each of map, unmap, write, fork, exit and exec keeps every frame in exactly one place |
| AddressSpaces.OperateAll | src/kernel/paging.rs:384-550 | in every run each managed frame is on the list or in one place of one tree, and the count is the list's length |
| UserMemory.ChunkWritten | src/kernel/paging.rs:238-244 | overwriting part of one mapped page changes exactly those bytes of that space |
| PageAllocation.PageAllocator.CopyToPages | src/kernel/paging.rs:219-251 | the bytes land at the given addresses across pages, up to the first unmapped page, and nothing else changes |
| FrameCounts.CountNext | src/kernel/paging.rs:491-519 | mapping one page more takes one frame, and one more for each span of 512 and of 262144 pages that has no table yet and in which it is the first; it fails exactly when these are lacking |
| FrameCounts.FramesOfNew | src/kernel/paging.rs:491-519 | in a new tree pages take one frame each, and one for each span of 512 and of 262144 with a page in it |
| KernelStackPages.PagesDistinct | src/kernel/kernelstack.rs:118-125 | no two pages of kernel stack slots share an entry of the kernel's table |
| KernelStackPages.AtMostTenFrames | src/kernel/kernelstack.rs:114-125 | whatever tables there are, the pages of a kernel stack take at least six frames and at most ten |
| KernelStackPages.MapStack | src/kernel/kernelstack.rs:120-125 | a free slot's six upper pages become mapped, the lowest stays unmapped, and no other slot changes, exactly when there are as many free frames as the pages and the tables missing for them take, and just these are taken; `alloc_page` never finds a page already mapped |
| KernelStackPages.UnmapStack | src/kernel/kernelstack.rs:166-181 | a slot in use becomes a free one, and six frames return to the list; no other slot changes, and no table |
| StackRoom.ProgramHasStack | src/kernel/paging.rs:199-208 | a loaded program has fourteen consecutive pages mapped |
| StackRoom.RoomAfterTeardown | src/kernel/paging.rs:384-419 | freeing a space with these pages puts at least fourteen frames on the list |
| StackRoom.StackAfterTeardown | src/kernel/processes.rs:241-245 | after the old space is freed the mapping of the new kernel stack cannot fail, however few frames were free; no other space changes |
| ElfImage.GuardPage | src/kernel/paging.rs:199-208 | every page of the image ends more than a page below the lowest page of the stack |
| ElfImage.ZeroesRightly | src/kernel/paging.rs:169-185 | the zeroing loop zeroes exactly the bytes it is meant to if and only if the file's part ends on a page boundary; then it also stays in its frames |
| ElfImage.BssIsZero | src/kernel/paging.rs:169-185 | a segment's memory past its file part reads zero exactly when no nonzero byte of the kernel address that its frame held on the free list is among those the loop leaves alone |
| ElfImage.BssAlwaysZero | src/kernel/paging.rs:169-185 | that is so whatever frames are free exactly when the file part ends 16 bytes or more past a page boundary, or the bytes left alone are among the first nine of the page |
| ElfImage.BssOfProgram | src/kernel/paging.rs:117-217 | so in every loaded program the memory reads zero in that case, and never when one of bytes 12 to 15 of the page is left alone |
| ElfImage.KernelAddressLeft | src/kernel/paging.rs:169-185 | of a segment with 8 bytes of file in 16 of memory, the program reads a kernel address of a frame in the last 8 |
| ElfImage.SegmentComposed | src/kernel/paging.rs:146-185 | mapping, copying and zeroing add exactly the segment's pages, every byte of which is the file's, a zero of the loop, or what the frame held on the free list |
| ElfImage.ImageStep | src/kernel/paging.rs:136-191 | a segment that is loaded leaves the earlier ones in place |
| ElfLoading.ZeroRest | src/kernel/paging.rs:169-185 | the loop as written, with the offset in the page added twice: what it zeroes, and exactly when it would leave a frame |
| ElfLoading.AddPages | src/kernel/paging.rs:151-159 | the segment's pages, and only they, become mapped, to frames not written since they were free; a page already mapped is one of the segment's; frames are lacking exactly when they are fewer than the pages take |
| ElfLoading.LoadSegment | src/kernel/paging.rs:146-190 | one segment in place, or the reason in the file why not |
| ElfFormat.HeadersReadBack | src/kernel/elf.rs:12-41 | from a file whose header and program headers are written out field by field, with the fields' widths, the kernel reads the entry point, the number and place of the program headers, and of each whether it is to be loaded, its offset, address and sizes |
| ElfFormat.SegmentsReadBack | src/kernel/paging.rs:131-144 | it loads exactly the segments of type 1, in order, as far as the file is long enough for their headers |
| ElfFormat.PrintedSpells | src/kernel/elf.rs:12-41 | a file put together from a header, program headers at `phoff` and anything else is such a file |
| ElfFormat.EveryFileSpells | src/kernel/elf.rs:48-68 | every file the kernel takes for one is such a file, so what it reads of any is determined |
| ElfLoading.LoadElf | src/kernel/paging.rs:117-217 | a new space of frames that were free, holding exactly the segments' pages and 14 stack pages, every byte accounted for; it succeeds exactly when nothing in the file stands against it (no page shared, every file part inside the file, no zeroing past a frame) and there are as many free frames as its pages and their tables take, and exactly these are gone; a file without segments leaves its L1 table behind; the entry point is the one read from the header, which `ElfFormat.HeadersReadBack` makes that of the file |
| ElfLoading.ProgramPagesAre | src/kernel/paging.rs:136-210 | the pages counted for a program are exactly those that are mapped in it |
| ArgumentLayout.TableBelowStrings | src/kernel/processes.rs:317-338 | the offset table ends below every string, the strings abut from the top, and the stack pointer is aligned |
| ArgumentLayout.LongestNotAccepted | src/kernel/syscalls.rs:144-145 | 32 arguments of 256 bytes, the most and the longest that `sys_exec` admits, are too long for the buffer |
| ArgumentLayout.LimitsOfAccepted | src/kernel/processes.rs:306-335 | a single argument is accepted up to 4080 bytes, and up to 64 empty ones are |
| ArgumentLayout.RoundTrip | src/user/src/lib.rs:110-136 | every argument laid out, empty ones included, is read back, on any memory that shows the buffer |
| ArgumentPassing.PlaceStrings | src/kernel/processes.rs:317-327 | the strings are in their places, or they do not fit |
| ArgumentPassing.PlaceTable | src/kernel/processes.rs:340-345 | the offsets are in the table and no string is disturbed |
| ArgumentPassing.BuildImage | src/kernel/processes.rs:306-345 | a complete layout exactly for the accepted argument lists; no index leaves the buffer |
| ArgumentPassing.PushArgs | src/kernel/processes.rs:273-365 | accepted arguments are what the program then reads through its own table; nothing outside the new part of the stack changes; each refusal has its exact cause |
| AddressSpaces.StartArguments | src/kernel/processes.rs:259-271 | after a load the arguments always find their page mapped and leave the image in place |
| AddressSpaces.ReplaceSpace | src/kernel/processes.rs:237-262 | exec replaces the old space by one that holds the program and its arguments, and every frame stays in one place; it succeeds exactly when the file can be loaded, the frames for the new space are free beside the old one, and the arguments fit |
| LifecycleRuns.StepKeeps | src/kernel/exceptions.rs:171-194 | every step keeps the invariant; it panics, and at which of the modelled sites, exactly when a fork lacks a space, a stack, frames for it or a slot, or the loader panics on an exec's file; it leaves a process half changed exactly when an exec gets no stack or its arguments do not fit, and overruns exactly when the loader writes past a frame |
| LifecycleRuns.ReachedInv | src/kernel/scheduler.rs:22-51 | every state reached from boot satisfies the invariant |
| LifecycleRuns.RunKeeps | src/kernel/exceptions.rs:171-194 | so does every state of a run that starts in it |
| LifecycleRuns.SingleRunner | src/kernel/scheduler.rs:88-106 | in every run, a process in control sits at the current slot, alone runs, is the one the processor names, and is in its own space |
| LifecycleRuns.NoDanglingParent | src/kernel/syscalls.rs:97-101 | in every run, the parent of a process other than init is in the table with a smaller pid and lives unless it is init; init is never reaped |
| LifecycleRuns.NoMissedExit | src/kernel/syscalls.rs:244-285 | in every run, a process blocked in wait has a living child it waits for, and unless it is init no dead one |
| LifecycleRuns.OneStackEach | src/kernel/kernelstack.rs:99-147 | in every run, a living process has exactly one allocated kernel stack and a dead one none |
| LifecycleRuns.OnlyLackPanics | src/kernel/syscalls.rs:21-23 | in every run, no panic is for want of the current process, of the one chosen, of a parent, of a child reaped, or of a kernel stack that ought to be there |
| LifecycleRuns.PidAccountedFor | src/kernel/processes.rs:133-137 | every pid issued is in exactly one slot of the table or was reaped exactly once, never both |
| LifecycleRuns.HaltedIsOver | src/kernel/scheduler.rs:43-49 | the kernel halts only when every process has terminated |
| LifecycleRuns.OwnStacks | src/kernel/kernelstack.rs:93-97 | two living processes have kernel stack pointers in different slots, whose mapped pages are more than a page apart, and different address spaces |
| LifecycleRuns.FreedNotInUse | src/kernel/kernelstack.rs:149-164 | a kernel stack a step frees was queued by another process than the one the step runs for |
| LifecycleInvariant.ScheduleKeeps | src/kernel/scheduler.rs:37-106 | with nobody running the scheduler makes one process run, or idles, or halts; the process chosen is never gone |
| LifecycleInvariant.WakeKeeps | src/kernel/scheduler.rs:174-189 | a wakeup keeps the invariant and never touches who runs |
| LifecycleSteps.EnterKeeps | src/kernel/exceptions.rs:175-183 | an exception from EL0 finds its process, saves its registers, and keeps the invariant; that the kernel stack pointer is on the process's own stack follows from its being where the return to EL0 left it |
| LifecycleSteps.TickKeeps | src/kernel/scheduler.rs:128-139 | a time slice that ends keeps a single runner |
| LifecycleSteps.SleepKeeps | src/kernel/exceptions.rs:107-134 | so does a sleep inside the kernel |
| LifecycleSteps.ReapKeeps | src/kernel/syscalls.rs:251-265 | a dead child leaves the table without leaving an orphan, and its delivery is recorded once |
| LifecycleExit.TerminateKeeps | src/kernel/processes.rs:372-378 | `terminate` finds the process's stack, hands its children to init, and leaves no dangling parent, stack or space |
| LifecycleExit.ExitSchedules | src/kernel/syscalls.rs:69-110 | `sys_exit` finds the parent, and the process it reaps |
| LifecycleExit.ExitKeeps | src/kernel/syscalls.rs:69-110 | an exit keeps the invariant: no waiting process loses its last hope unnoticed |
| LifecycleExit.WaitKeeps | src/kernel/syscalls.rs:233-291 | a wait keeps the invariant, reaping, refusing or blocking |
| LifecycleFork.ForkKeeps | src/kernel/syscalls.rs:114-138 | a fork fails exactly when the copy of the space, a stack, frames for its pages or a slot is lacking, in this order, and keeps the invariant |
| LifecycleFork.ExecKeeps | src/kernel/processes.rs:237-262 | an exec is left half changed exactly when, with the old space gone, no kernel stack is free or the arguments do not fit; it panics exactly when the loader does; otherwise it keeps the invariant |
| LifecycleTurns.DispatchRestores | src/kernel/scheduler.rs:88-106 | after a dispatch exactly the chosen process runs, with the registers saved for it |
| LifecycleTurns.ScanIsNearest | src/kernel/scheduler.rs:74-83 | the circular scan takes the nearest ready slot |
| LifecycleTurns.PassedOver | src/kernel/scheduler.rs:66-86 | a scheduling that passes over a ready process comes strictly nearer to it |
| LifecycleTurns.BoundedBypass | src/kernel/scheduler.rs:66-139 | while a process stays ready, in any run, fewer dispatches happen than its distance from the current slot |
| LifecycleTurns.DispatchlessStays | src/kernel/scheduler.rs:14-14 | nothing but a dispatch changes the current slot |
| LifecycleDelivery.WaitStep | src/kernel/syscalls.rs:244-277 | a wait takes the pid and code of a dead child in the caller's registers exactly when it has one it asks for |
| LifecycleDelivery.ExitStep | src/kernel/syscalls.rs:82-96 | a child that exits while its parent waits for it is handed over in that step, in the parent's saved registers; otherwise it stays with its code |
| LifecycleDelivery.NoOtherDelivery | src/kernel/syscalls.rs:12-32 | deliveries happen in no other step |
| LifecycleOrphans.InitInheritsUnnoticed | src/kernel/processes.rs:188-199 | the exception for init, for every event: after it init is blocked beside a dead child it waits for exactly when the event is an exit in which it takes one over, or it was so before and the event is not the exit of a child it waits for |
| LifecycleOrphans.UnnoticedSinceBoot | src/kernel/syscalls.rs:81-101 | in every run from boot, init is in that state exactly when some exit made it take over such a child and no child it waits for has exited since |
| LifecycleScene.InitCanBeLeft | src/kernel/processes.rs:188-199 | a run from boot that gets there |
| LifecycleScene.ForkCanPanic | src/kernel/syscalls.rs:114-138 | a run from boot, of two forks on a table of two, that panics |
| LifecycleSleepers.StepPasses | src/kernel/exceptions.rs:171-194 | what any event does to any living process that is not in control, but a parent that waits for the process that exits: it is the same process with the same registers, woken exactly if it sleeps on the channel of the event, at most set running if it was ready, and handed to init if its parent exits |
| LifecycleSleepers.SleeperWakes | src/kernel/scheduler.rs:174-195 | in any event, a process asleep on a channel stays asleep on it for the same reason unless the event is a wakeup on it, or finds a byte on the UART and the channel is the UART's; then it is ready, or runs at once, with neither reason nor channel, the same pid and registers |
| LifecycleSleepers.WakeupSparesOthers | src/kernel/scheduler.rs:174-189 | a wakeup leaves all else as it is, slot by slot |
| LifecycleSleepers.SleepSaves | src/kernel/exceptions.rs:107-118 | a process that goes to sleep inside the kernel is blocked on its channel for its reason, with the registers of that moment saved; if nobody is ready the processor names nobody |
| LifecycleSleepers.GoesOn | src/kernel/scheduler.rs:88-106 | over any run, a process set down goes on with the registers with which it was set down, when it is next in control |
| LifecycleSleepers.SleeperGoesOn | src/kernel/exceptions.rs:107-118 | so a process that slept inside the kernel goes on there, and not at its system call |
| LifecycleSleepers.TickSetsDown | src/kernel/scheduler.rs:128-139 | at the end of a time slice the process is ready with the registers it came in with, or runs on with them at once |
| LifecycleSleepers.PreemptedGoesOn | src/kernel/scheduler.rs:88-139 | and goes on with them, over any run, when it is next in control |
| LifecycleAnswers.ExecStarts | src/kernel/processes.rs:241-271 | an exec that returns to user mode returns to the image's entry in its space, with the count of the arguments in x0, their place in x1 and the stack pointer, the top of the stack in x2 and zero elsewhere, on another kernel stack than before, which is queued |
| LifecycleAnswers.BootStarts | src/kernel/processes.rs:167-186 | after boot init, pid 1 without parent, is in control at the beginning of its program, and nothing else is in the tables |
| LifecycleAnswers.CallsAnswer | src/kernel/syscalls.rs:152-155 | an exec that is refused answers -1 and changes no other register; a call that only answers changes x0 and x1 |
| LifecycleAnswers.WaitAnswers | src/kernel/syscalls.rs:233-291 | a wait answers -1 exactly without a child it asks for, the pid and exit code of a dead one if there is one, and blocks exactly otherwise, with the registers it came in with |
| LifecycleAnswers.ExitAnswers | src/kernel/syscalls.rs:69-110 | an exit answers the wait of the parent that asks for the process, in the parent's saved registers; without one it stays dead in the table with the code that was in x0 |
| LifecycleAnswers.StacksMove | src/kernel/kernelstack.rs:99-164 | what every event makes of every kernel stack: a queued one becomes free on the way into the kernel unless the process queued it itself, one in use is queued exactly when its process exits or goes on in a new image, and only free ones are given out |
| LifecycleAnswers.IdleOrOver | src/kernel/scheduler.rs:37-51 | in every run the kernel idles only while some process is blocked, and halts only when all have terminated |
| LifecycleContexts.RegistersKept | src/kernel/processes.rs:384-386 | no step changes the registers of a living process that is not current, but an exit those of the parent that waits for it |
| LifecycleContexts.RegistersSaved | src/kernel/scheduler.rs:108-121 | a process set aside by the timer or by a blocking wait has the registers it came in with |
| LifecycleContexts.ForkReturnsTwice | src/kernel/syscalls.rs:130-135 | fork returns zero in the child and the child's pid, which is the next, in the parent; the child is ready, its parent's, and differs only in its space and stack, where it stands as deep |
| KernelTables.Kernel.constructor | src/kernel/processes.rs:167-186 | the tables with init spawned; `LifecycleAnswers.BootStarts` says with what registers it starts |
| KernelTables.Kernel.FindById | src/kernel/processes.rs:413-424 | the loop finds the slot the model finds |
| KernelTables.Kernel.AddProcess | src/kernel/processes.rs:427-437 | the process takes the first empty slot, if there is one |
| KernelTables.Kernel.RemoveProcess | src/kernel/processes.rs:439-451 | the slot with this pid becomes empty, if there is one |
| KernelTables.Kernel.ReparentChildrenTo | src/kernel/processes.rs:188-199 | the loop in place computes the model's table |
| KernelTables.Kernel.Wakeup | src/kernel/scheduler.rs:174-189 | the loop in place does what the model does to every slot; `LifecycleSleepers.SleeperWakes` and `WakeupSparesOthers` say that this wakes the sleepers on the channel and nobody else |
| KernelTables.Kernel.GetActiveStackIndex | src/kernel/kernelstack.rs:72-81 | the loop finds the slot allocated to the pid |
| KernelTables.Kernel.FirstFreeStack | src/kernel/kernelstack.rs:114-116 | the scan finds the first free slot |
| KernelTables.Kernel.AllocStack | src/kernel/kernelstack.rs:108-147 | the first free slot, unless the process has one |
| KernelTables.Kernel.QueueStackToFree | src/kernel/kernelstack.rs:99-105 | the process's slot is queued |
| KernelTables.Kernel.FreeQueuedStacks | src/kernel/kernelstack.rs:149-164 | every queued slot is freed but those of the current process |
| KernelTables.Kernel.ChooseNextProcess | src/kernel/scheduler.rs:66-86 | the circular scan in place |
| KernelTables.Kernel.ScheduleNext | src/kernel/scheduler.rs:37-106 | choosing and loading a process, or finding none |
| KernelTables.Kernel.EnterFromUser | src/kernel/exceptions.rs:175-183 | the entry from EL0 on the tables |
| KernelTables.Kernel.TimesliceUp | src/kernel/scheduler.rs:128-139 | the timer's step on the tables |
| KernelTables.Kernel.TerminateCurrent | src/kernel/processes.rs:372-378 | `terminate` on the tables |
| KernelTables.Kernel.NotifyParentOfExit | src/kernel/syscalls.rs:81-101 | the parent's part of `sys_exit` on the tables |
| KernelTables.Kernel.SysExit | src/kernel/syscalls.rs:69-110 | `sys_exit` on the tables computes the model's step |
| KernelTables.Kernel.SysWait | src/kernel/syscalls.rs:233-291 | the scan of `sys_wait` computes the model's step |
| KernelTables.Kernel.SysFork | src/kernel/syscalls.rs:114-138 | `sys_fork` with `fork` and `duplicate_stack` computes the model's step |
| KernelTables.Kernel.SysExec | src/kernel/syscalls.rs:143-230 | `sys_exec` on the tables computes the model's step, of which `LifecycleAnswers.ExecStarts` and `CallsAnswer` say what it leaves in the registers |
| KernelTables.Kernel.ReplaceImage | src/kernel/processes.rs:241-259 | the part of `exec` after the old table is freed, with each of its failures, computes the model's step; its first registers are those of `LifecycleAnswers.ExecStarts` |
| KernelTables.Kernel.SleepInKernel | src/kernel/scheduler.rs:141-152 | a sleep and its handling in EL1 compute the model's step, of which `LifecycleSleepers.SleepSaves` says what is saved |
| KernelTables.Kernel.HandleException | src/kernel/exceptions.rs:171-194 | the whole handler computes the model's step, to which the invariant applies |
| PlacesInMemory.TiedSlot | src/kernel/kernelstack.rs:108-181 | a slot that changes hands while its pages are mapped or unmapped leaves tables and memory tied together: every slot is free exactly when its pages are unmapped, and every space in use is a tree with a stack |
| PlacesInMemory.TiedReplaced | src/kernel/processes.rs:237-245 | so does an exec's exchange of the space and the stack |
| PlacesInMemory.FreshFromList | src/kernel/paging.rs:295-303 | a root made of a frame from the list is that of no space in use |
| MachineStates.CopyLasts | src/kernel/processes.rs:205-215 | a child's space stays a copy of its parent's, and the other spaces as they were, while its kernel stack is mapped |
| MachineStates.ServedBefore | src/kernel/exceptions.rs:175-183 | what a request does to the spaces it does from the memory in which the exception came, the stacks freed on entry notwithstanding |
| Machines.Machine.EnterFromUser | src/kernel/exceptions.rs:175-183 | the slots queued by other processes are unmapped and free, with six frames each back on the list; no user space changes |
| Machines.Machine.SysExit | src/kernel/syscalls.rs:69-110 | the exit on the tables, with the frames of the space back on the list and no other space changed |
| Machines.Machine.SysFork | src/kernel/syscalls.rs:114-138 | the fork on the tables; the space is copied exactly when the frames suffice for it, the stack mapped exactly when they suffice for both; the child's space is a copy, and no other changes |
| Machines.Machine.SysExec | src/kernel/processes.rs:237-262 | the exec on the tables: refused exactly without a program, loaded exactly when nothing in the file stands against it and the frames suffice for it, and then never without frames for its stack; the live registers are at the file's entry, with the number of arguments in x0, each of which the program's own reader finds from x1, where its stack pointer is, and x2 in its own memory, and zero elsewhere; the new space holds the program, and no other changes |
| Machines.Machine.HandleException | src/kernel/exceptions.rs:171-194 | the handler, on tables and memory, makes the model's step for what the request comes to, which the memory before it decides, with the frames that freeing the queued stacks adds; no space but the process's own changes |
| Machines.Machine.TakeAll | src/kernel/exceptions.rs:171-194 | every run is a run of the model on the same inputs, event for event, and in every state of it slots and pages, spaces and trees are tied together |
| Machines.PrepareMemory | src/main.rs:43-43 | the frames given out are free and counted, and the kernel's own table is among the trees, with every slot free and unmapped |
| Machines.SpawnInit | src/kernel/processes.rs:167-186 | init is spawned exactly with a file that can be loaded, frames for it and for its kernel stack, and arguments that fit |
| Machines.Start | src/main.rs:43-58 | boot from frames not yet managed to init in control, or its failure, exactly; the live registers are at the file's entry, with the arguments where x0, x1 and x2 say |
| Machines.StartAndRun | src/main.rs:43-58 | so every run from boot is a run of the model from its boot |
| MutexProtocol.MutualExclusion | src/kernel/mutex.rs:32-42 | under any interleaving at most one process is between acquire and release, and it is the recorded owner |
| MutexProtocol.NoLostWakeup | src/kernel/mutex.rs:44-65 | a process blocked on the mutex has a holder, or a releaser with the guard on its way to its slot |
| MutexProtocol.PanicsForStrangers | src/kernel/mutex.rs:47-56 | a release panics exactly when the caller does not hold the mutex |
| MutexProtocol.DisciplinedNeverPanics | src/kernel/mutex.rs:44-65 | callers that release only what they hold never reach a panic |
| MutexProtocol.GuardOutlivesWaking | src/kernel/exceptions.rs:115-129 | in every schedule, from finding the lock taken until it is marked blocked a process has the guard, and no step of another frees the lock or changes who sleeps |
| MutexProtocol.NoDeadlock | src/kernel/mutex.rs:32-65 | while anybody wants the mutex or sleeps on it, somebody can move |
| MutexProtocol.FreeMeansAwake | src/kernel/scheduler.rs:174-189 | once the lock and the guard are free nobody sleeps |
| MutexProtocol.RunInv | src/kernel/mutex.rs:32-65 | the invariant over every schedule |
| Spinlocks.BalancedRestores | src/kernel/interrupts.rs:150-177 | balanced calls, however nested, never panic and restore the interrupt mask |
| Spinlocks.MaskedInBetween | src/kernel/interrupts.rs:150-177 | in between, interrupts are off exactly while a call is unmatched |
| Spinlocks.Cpu.PushOff | src/kernel/interrupts.rs:150-159 | interrupts are masked, and only the outermost call remembers whether they were on |
| Spinlocks.Cpu.PopOff | src/kernel/interrupts.rs:161-177 | only the outermost call restores them; it panics when interrupts are on or nothing is nested |
| Spinlocks.Spinlock.Acquire | src/kernel/spinlock.rs:27-46 | a free lock is taken with interrupts masked; one this processor holds is a panic, one another holds keeps it spinning |
| Spinlocks.Spinlock.Release | src/kernel/spinlock.rs:48-64 | succeeds exactly for the holder with interrupts masked, and undoes the masking |
| ShellLexer.SpansOrdered | src/user/src/bin/shell.rs:66-125 | the words of a line of at most 255 bytes lie in it one after the other, without overlap |
| ShellLexer.SpansAligned | src/user/src/bin/shell.rs:34-37 | every span begins and ends at a character boundary of the line |
| ShellLexer.QuotesRoundTrip | src/user/src/bin/shell.rs:94-109 | quoting any words without quotes and lexing the line gives them back |
| ShellLexer.Lexer.Next | src/user/src/bin/shell.rs:66-125 | the loops find the token the model finds, and the position moves past it; what the tokens of a line are is in `ShellLines.EveryLineIsRead` |
| ShellLines.WrittenIsRead | src/user/src/bin/shell.rs:66-125 | a line written out from bare and quoted words and the bytes of the three signs, in any white space, is lexed as exactly these, with their texts, and in order unless a quote is left open at its end |
| ShellLines.EveryLineIsWritten | src/user/src/bin/shell.rs:66-125 | any line at all is written out so |
| ShellLines.EveryLineIsRead | src/user/src/bin/shell.rs:66-125 | so the tokens of every line of at most 255 bytes are what is written on it |
| ShellLines.OrdersAreObeyed | src/user/src/bin/shell.rs:177-259 | a line on which jobs are written executes exactly these, in order, with the words they are written with, in the background exactly where an ampersand is; the last semicolon may be missing |
| ShellLines.LimitsAre | src/user/src/bin/shell.rs:12-13 | the seventeenth word of a command, and the ninth command of a job, end the line before the job is executed |
| ShellParser.ExecutesWhatIsWritten | src/user/src/bin/shell.rs:177-259 | a line executes exactly the jobs its tokens spell, in order, with their flags; when an error ends it, the jobs before it, and the error is what is wrong with what comes next |
| ShellParser.SpelledIsExecuted | src/user/src/bin/shell.rs:211-233 | every job a line spells in full from its beginning is executed, whatever follows |
| ShellParser.ErrorIsTheFirst | src/user/src/bin/shell.rs:177-259 | a line ends in a given error after given jobs exactly when it spells these jobs, then part of one more, and then comes that error |
| ShellParser.WrittenIsExecuted | src/user/src/bin/shell.rs:177-259 | a line is executed without error exactly when it spells jobs within the limits |
| ShellParser.Parser.PushWord | src/user/src/bin/shell.rs:188-195 | a word joins the command, if there is room |
| ShellParser.Parser.PushCommand | src/user/src/bin/shell.rs:202-209 | the command joins the pipeline, if there is room |
| ShellParser.Parser.Consume | src/user/src/bin/shell.rs:187-233 | one token on the buffers does what the model says for any rest of the line |
| ShellParser.Parser.ParseAndRun | src/user/src/bin/shell.rs:177-259 | the loop executes what the model executes |
| Tetris.NoCellLost | src/user/src/bin/tetris.rs:86-183 | in every game, whatever the input, ten times the filled cells plus the score are forty times the pieces at rest, the falling piece has four cells, and while the game is on it is on the board and over no filled cell |
| Tetris.StepSound | src/user/src/bin/tetris.rs:116-144 | every input keeps that |
| Tetris.RotationKeepsCells | src/user/src/bin/tetris.rs:116-126 | a turn keeps the number of cells |
| Tetris.FourTurns | src/user/src/bin/tetris.rs:116-126 | four turns are none |
| Tetris.LockedFills | src/user/src/bin/tetris.rs:146-160 | a piece that fits fills as many cells as it has |
| Tetris.ClearingCounts | src/user/src/bin/tetris.rs:162-183 | ten cells go with every line cleared |
| Tetris.FullRowsLeft | src/user/src/bin/tetris.rs:164-179 | a full row stays behind exactly when two adjacent rows were full |
| Tetris.OneOfTwoStays | src/user/src/bin/tetris.rs:164-179 | of two full rows at the bottom one is cleared and the other stays, full |
| TetrisMoves.InputsShift | src/user/src/bin/tetris.rs:128-144 | A moves the cells of the piece one column to the left, D one to the right and a tick one row down, exactly when those cells are free, and changes nothing else |
| TetrisMoves.RotateTurns | src/user/src/bin/tetris.rs:116-126 | W turns the cells of the piece clockwise, exactly when the cells they come to are free |
| TetrisMoves.NextAtTop | src/user/src/bin/tetris.rs:81-95 | a piece that lands is counted, the next is in the middle of the two topmost rows, and the game is over exactly when it covers a filled cell |
| Tetris.GameState.CheckFit | src/user/src/bin/tetris.rs:97-114 | the loops decide whether the piece fits |
| Tetris.GameState.SpawnPiece | src/user/src/bin/tetris.rs:81-95 | a shape of the generator's choice at the top, and the end of the game if it does not fit |
| Tetris.GameState.RotatePiece | src/user/src/bin/tetris.rs:116-126 | the loop turns the piece if the result fits |
| Tetris.GameState.MoveHorizontal | src/user/src/bin/tetris.rs:128-132 | the piece moves if it fits there |
| Tetris.GameState.LockPiece | src/user/src/bin/tetris.rs:146-160 | the loops fill in the piece |
| Tetris.GameState.ShiftDown | src/user/src/bin/tetris.rs:174-177 | the rows above come down over a full one |
| Tetris.GameState.ClearLines | src/user/src/bin/tetris.rs:162-183 | the loop over the rows, and the score |
| Tetris.GameState.DoTick | src/user/src/bin/tetris.rs:134-144 | the piece falls, or lands and the next appears |

## Left out

- Absent table arguments: `None` for a translation table, which reads the hardware register, is not modelled; the table is always given.
- Layout of a free frame: `Option<*mut FreeFrame>` is taken to be a tag word (0 or 1) and the pointer word after it.
- Zeroing past a frame: where the loader's loop would write beyond the frame the model stops, since what lies there is arbitrary.
- ELF files out of range: segments are assumed to end 128 KiB or more below the top of user space and to have no more file bytes than memory; headers and slices out of the file are modelled, but for a `phoff` near 2^64: there `start + i * ph_size` (`src/kernel/paging.rs` line 137) overflows, which panics with overflow checks and wraps without, while the model takes the header to be beyond the file.
- Failed exec: the state after an exec that fails once the old table is gone is a phase in which nothing more is said (`HalfChanged`); so is that after the loader has written past a frame (`Overrun`).
- Failed fork: it panics at `src/kernel/syscalls.rs` line 21, and nothing is said after a panic.
- Boot: the kernel's own table is given, prepared with no kernel stack mapped; what else boot sets up is not modelled. A boot that cannot spawn init ends without a kernel.
- Life cycle: `Lifecycle` takes the L1 table of a fork or exec, what becomes of the load (`Loading`) and whether frames suffice for a fork's kernel stack as given; what they are is in `Machines`. The kernel's table is named there by its frame, which the physical address given on allocating and the kernel address given on freeing both denote.
- Order within a handler: in `Machines` the pages of all the stacks to be freed are unmapped before their slots are marked free, and a fork's stack is mapped before its slot is taken; nothing in between looks at either.
- Kernel stack contents: the copy of the parent's kernel stack in fork is only the stack pointer's depth. After a sleep the kernel is taken to keep to its own stack until it returns to EL0.
- Widths: pids, the score and the counters do not wrap around at 64 bits.
- Names of processes, debug output, timers, cache and TLB maintenance, and the assembly files: not modelled. An exception is one step.
- Calls that only answer (print, read, poll, sleep, information): one step `Other` that sets x0 and x1.
- The checks of `sys_exec` on its pointers, lengths and UTF-8: a call they refuse is `CallExec` with `Refused`.
- Exceptions the kernel does not handle: it stops there, and the model has no step for them.
- Mutex on one processor: the model allows any interleaving; that interrupts are masked while the guard is held is only in `Spinlocks`. Callers outside any process (before the first one runs) are not modelled.
- UTF-8: that arguments and lines are well-formed is not modelled; `ShellLexer.SpansAligned` assumes its consequence that no character starts with a continuation byte.
- Running commands: `execute_pipeline` appends to a trace.
- Rendering and timing of Tetris: not modelled; any sequence of inputs may come.
- Multicore, the file system, `io.rs` and the other user programs: not part of this model.
