# Verified models of a systems-programming repository

This project models the state machines of a small operating system, a file
layer with locks, a heap allocator, a number printer and a shell, and proves
what they promise. Run `dafny verify dfyconfig.toml` to check all of it.

- **The kernel's copy-on-write memory** (`KernelSpec`, `Kernel`, `Eager`,
  `Effects`, `FreeRange`, `Room`). `Kernel.Machine` holds counts, page bytes,
  mappings, table pages and process states, and its methods follow the system
  calls and the page-fault handler. It refines `Eager`, a machine whose fork
  copies every page at once; counts are exact after every call, failed ones included, and
  the calls that allocate fail exactly when too few pages are left. `Effects`
  tells what each call does byte by byte.
- **Page-table iterators** (`PageTableSpec`, `PageTree`, `VmIter`, `PtIter`,
  `AddressSpace`, `PageLog`, `Paged`).
  Page tables are entries in physical memory. The mapping iterator moves
  incrementally and always stands where a fresh walk would; the table
  iterator visits each table page once, below before above, while the pages
  it has left are being cleared. `AddressSpace` shows that through these
  iterators the tables of all processes keep saying what the kernel's maps say,
  and `Paged` joins this to the kernel: after each call of any run the page
  tables in memory translate as it means.
- **Range locks** (`LockSpec`, `LockTable`, `LockMachine`) and **the account
  database on top of them** (`Bank`, `BankSerial`, `BankMoney`,
  `BankProgress`, `BankLaws`, `Transfers`). Threads are interleaved step by
  step: transfers are serialisable, money is conserved, the ledger agrees with
  the balances, and there is no deadlock; `BankLaws` tells what each transfer
  moves, and `Transfers` runs them on the lock arrays and the bytes of the
  account file.
- **The positioned file cache** (`PosCache`) and **the account records in
  it** (`BalanceText`, `AccountText`, `AccountFile`).
- **Sequential buffered files** (`OpenFile`, `SlowIo`, `SeqWrite`, `SeqRead`)
  against the unbuffered version of the same interface.
- **The heap** (`HeapSpec`, `HeapTold`, `Heap`, `HeapClient`): first fit over two
  maps with eager coalescing and marked padding, and whole runs of a client
  that keeps inside its payloads.
- **Numbers as text** (`NumberText`, `Numbers`) and **shell command lists** (`Shell`).

`Basics` holds what several models share. Classes hold the state the source
updates in place, and their methods are proved against functions on plain
values; the properties are lemmas about those functions. `Effects`, `BankLaws`,
`BalanceText`, `HeapTold` and `NumberText` say what the calls do in addresses,
amounts, characters and bytes, without those functions. The kernel's answers
to file calls, the exit statuses of processes, the draws of random amounts and
the order of thread steps are parameters: everything is proved for all of them.

Seven places where the code does not do what its comments or callers expect
are kept as they are, with the exact condition and an input: the shrinking
reallocation (`Heap.ShrinkLosesBytes`), the free-range search in a full address
space (`FreeRange.FindFreeRightIff`), a transfer of a negative draw
(`BankMoney.StaysInRangeIff`), a name that fills its field
(`AccountText.NameIndependentIff`), negated numbers out of range
(`Numbers.Strtoul`), a flush that fails half-way (`SeqWrite.RetryRightIff`), and
the code of a read at the end of a file that cannot be mapped, which the
comment gives as 0 (`SeqRead.SameReplies`).

## Model

| member | source | states |
|---|---|---|
| `Kernel.Machine.Run` | pset3/kernel.cc:393-460 | The calls of any list of loads, stores, forks, exits, kills, mmaps and munmaps by live processes are made one after the other, up to the first that is not allowed; answers and memory are those that the machine whose fork copies every page at once can also give, call for call; and of the state before each call it is said exactly when the call is refused, faults or ends its process |
| `Kernel.Machine.Step` | pset3/kernel.cc:393-460 | One call keeps the kernel's invariant; its answer and effect on visible memory are one allowed step of the eagerly copying machine; a fork, mmap or kill is refused, a load or store faults, and a store ends its process exactly when the state before the call makes it; and the change of visible memory is told page by page and byte by byte (`Effects.Effect`) |
| `Kernel.LastStored` | pset3/kernel.cc:303-349 | Over any stretch of a run, the byte a process stored last is the byte found in its page, and the one its next load of it is answered, until it stores there again, unmaps the page or ends |
| `Effects.ByteStays` | pset3/kernel.cc:303-349 | Over any stretch of a run, a byte a process sees stays, whatever other processes store, fork, map or end, until it stores there, unmaps the page or ends |
| `Effects.ChildFinds` | pset3/kernel.cc:570-626 | The child of a fork finds every byte its parent had at the fork, however much later, until it stores there itself, unmaps the page or ends; stores by the parent do not show |
| `Effects.NextEffect` | pset3/kernel.cc:393-460 | What each answered call does to visible memory, told byte by byte for all pages of all processes: one byte stored, a process and its pages gone, a child with equal pages, zeroed pages at the address returned, the pages that lie in a range unmapped; and nothing else |
| `Eager.Isolated` | pset3/kernel.cc:303-349 | Over any run, the memory of a process that makes no call and is not killed stays exactly as it was: no write of another process shows |
| `Eager.ExplainsMore` | pset3/kernel.cc:393-460 | A run the eager machine explains stays explained when one more allowed call is added at its end |
| `Kernel.Machine.Fork` | pset3/kernel.cc:570-626 | Success returns the lowest free slot made runnable, with a copy of the parent's visible memory and nothing else changed, the pages being shared read-only and marked in both; failure leaves every process's visible memory and state and all page tables as before; it fails exactly when no slot is free or fewer pages are left than the child's page tables take |
| `Kernel.AnswerRefuses` | pset3/kernel.cc:504-626 | A fork is refused exactly without a free process slot or with fewer than four free pages, five when the process has a page from 0x200000 on; an mmap exactly for length 0, without a free range, or with fewer free pages than it maps and one more when its only missing page table is needed |
| `Room.ForkTakes` | pset3/kernel.cc:580-590 | The page tables of a child are one of each level, and a second lowest one when the parent has a page from 0x200000 on |
| `Room.MapTakes` | pset3/k-vmiter.cc:85-94 | New pages of a process take one more page table at most, when they reach over 0x200000 for the first time |
| `Kernel.Machine.ForkPages` | pset3/kernel.cc:587-618 | Sharing all pages makes the child's contents the parent's, with exactly the marks of sharing in both; it fails exactly when the page-table pages still missing for the child are more than the pages left, and freeing the child then restores contents and mapped pages |
| `Kernel.Machine.ForkPage` | pset3/kernel.cc:591-617 | One page: a user page is shared read-only, marked if it was writable, with its count raised; a kernel page or the console is mapped as is; it fails exactly when memory runs out for the tables on the way, and then changes no mapping and no contents |
| `Kernel.Machine.WriteFault` | pset3/kernel.cc:295-361 | A write fault on a user page that is mapped makes that one mapping writable, in place when its count is 1 and otherwise on a page that had count 0, without changing any process's contents; it ends the process exactly when the count is not 1 and no page is left; any other page marks the process faulted |
| `Kernel.Machine.CopyPage` | pset3/kernel.cc:326-347 | A shared page is replaced by a private writable copy on a page that had count 0, and every process sees the same bytes as before; it fails exactly when no page is left |
| `Kernel.Machine.Reenable` | pset3/kernel.cc:317-324 | With count 1 the mapping becomes writable in place, and contents stay |
| `Kernel.Machine.Store` | pset3/kernel.cc:295-361 | A user store, with its fault, leaves the byte stored in its place, every other byte of the page and every other page of every process as before; it faults exactly on a page the process cannot read, and ends the process exactly on a read-only user page with a count other than 1 when no page is left |
| `Kernel.Machine.Load` | pset3/kernel.cc:295-361 | A user load reads the eager machine's byte; it faults exactly without a user mapping |
| `Kernel.Machine.WriteByte` | pset3/kernel.cc:303-349 | Storing through a writable mapping leaves that byte in its place, and every other byte and page of every process as before |
| `Kernel.Machine.Kalloc` | pset3/kernel.cc:126-148 | Returns the first allocatable page with count 0, every byte of it 0xCC, counted once, no other page or count changed; fails exactly when there is none |
| `Kernel.Machine.Kfree` | pset3/kernel.cc:159-166 | Lowers the count, and clears the page when it reaches 0 |
| `Kernel.Machine.EnsureTables` | pset3/k-vmiter.cc:85-94 | Adds exactly the missing table pages for an address, each with an exact count, keeping all contents; fails exactly when they are more than the pages left |
| `Kernel.Machine.AddTable` | pset3/k-vmiter.cc:85-94 | One table page is allocated and linked, or nothing changes; it fails exactly when no page is left |
| `Kernel.Machine.FreeEverything` | pset3/kernel.cc:168-180 | Removes one process's mappings and table pages; every count is exact again and the contents of all other processes stay |
| `Kernel.Machine.FreePages` | pset3/kernel.cc:170-173 | The loop over user mappings gives back one count for each, whatever is shared |
| `Kernel.Machine.FreeTables` | pset3/kernel.cc:175-179 | The loop over table pages frees each of the process's tables, the root last |
| `Kernel.Machine.Exit` | pset3/kernel.cc:628-634 | Exit removes the process and its memory from what is visible and nothing else |
| `Kernel.Machine.Kill` | pset3/kernel.cc:636-643 | Kill of a runnable process does what its exit would; any other target returns -1 and changes nothing |
| `Kernel.Machine.Mmap` | pset3/kernel.cc:504-557 | Success returns the hint when it is a multiple of 4096, reaches from 0x100000 to at most 0x300000 and all its pages are unmapped, and otherwise the lowest free range; it maps zeroed pages with the given rights there and changes no other mapping; failure at any point rolls back to the same mappings and visible memory; it fails exactly for length 0, without a free range, or with fewer pages left than the range and its missing page tables take |
| `Kernel.Machine.MapRange` | pset3/kernel.cc:525-553 | All n pages are mapped, zeroed and marked as asked, or contents and mappings are as before the loop; it fails exactly when n and the missing page tables are more than the pages left |
| `Kernel.Machine.UnmapRange` | pset3/kernel.cc:532-536 | The roll-back loop undoes exactly the pages mapped so far |
| `Kernel.Machine.Place` | pset3/kernel.cc:509-521 | The hint is kept exactly when it is a multiple of 4096, its range lies in 0x100000 to 0x300000 and all of its pages are unmapped; otherwise the result is the lowest page from 256 on that starts a free range |
| `Kernel.PlaceRight` | pset3/kernel.cc:509-521 | The same of the place as a function of the mapped pages, whenever the search for a free range is right |
| `Kernel.Machine.FindFreeVmemory` | pset3/kernel.cc:481-502 | The running-total loop returns the first window the search function finds |
| `FreeRange.FindFreeRightIff` | pset3/kernel.cc:481-502 | The search returns the lowest free window of n pages, and 0 when there is none, if and only if some such window exists or the top page is mapped |
| `FreeRange.ScanFinds` | pset3/kernel.cc:486-501 | From any point of the scan: the lowest window if one exists, otherwise 0 exactly when the top page is mapped |
| `FreeRange.ShortRun` | pset3/kernel.cc:481-502 | A process with its code page mapped and its stack page given up: no window of 512 pages, and the search still returns an address |
| `Kernel.Machine.Munmap` | pset3/kernel.cc:559-568 | Unmaps exactly the caller's user pages that the range reaches into, in the mappings and in visible memory; from an unaligned address on, a range with no user page |
| `Kernel.Machine.ProcessSetup` | pset3/kernel.cc:188-250 | A process with its program image starts runnable, with every byte of the image in its place in its memory, each page with its rights, and exact counts; it fails exactly with fewer free pages than the image has and four more, five when some of it lies from 0x200000 on |
| `Kernel.Machine.BuildSpace` | pset3/kernel.cc:191-246 | The kernel half and the image are mapped in an empty table, the image pages with their rights; it fails exactly when memory runs out |
| `Kernel.Machine.MapKernel` | pset3/kernel.cc:195-201 | The addresses below the process start are mapped as in the kernel's table, without touching counts of user pages; it fails exactly when memory runs out for the tables |
| `Kernel.Machine.MapImage` | pset3/kernel.cc:208-246 | Each image page gets a private page with its bytes and its rights; it fails exactly when memory runs out |
| `Kernel.Machine.constructor` | pset3/kernel.cc:60-92 | The state before any process satisfies the invariant |
| `KernelSpec.CountFacts` | pset3/kernel.cc:126-180 | In every reachable state a page's count is its user mappings plus its uses as a table page and at most 15; a page mapped writable, and a table page, has count 1 |
| `KernelSpec.UsesBounded` | pset3/kernel.hh:68-74 | As all mappings of a page share one virtual address, uses never exceed 15, so the 8-bit count cannot wrap |
| `KernelSpec.SoleWhenOne` | pset3/kernel.cc:317-324 | Count 1 means no other process maps the page, which is what makes re-enabling writes safe |
| `KernelSpec.AllocInv` | pset3/kernel.cc:126-148 | Allocating keeps every count exact but the new page's, which is one ahead of its uses, and shows in no contents |
| `KernelSpec.FreeInv` | pset3/kernel.cc:159-166 | Giving back a page that is one ahead makes all counts exact; clearing it shows in no contents |
| `KernelSpec.TableInv` | pset3/k-vmiter.cc:87-92 | Allocating and linking a table page keeps the invariant, even while another page is one ahead |
| `KernelSpec.UnlinkInv` | pset3/kernel.cc:175-177 | Unlinking a table of a process with no mappings leaves its page one ahead |
| `KernelSpec.MapInv` | pset3/kernel.cc:540-552 | Mapping a page that is one ahead makes counts exact and adds its bytes to the contents |
| `KernelSpec.UnmapInv` | pset3/kernel.cc:561-566 | Unmapping leaves the page one ahead and removes one address from the contents |
| `KernelSpec.RemarkInv` | pset3/kernel.cc:613-615 | Changing only the marks of a mapping keeps the invariant as long as writable means sole |
| `KernelSpec.ForkInv` | pset3/kernel.cc:600-617 | Sharing one page between parent and child keeps the invariant and copies the page's contents to the child |
| `KernelSpec.CopyInv` | pset3/kernel.cc:334-346 | Pointing a mapping at a private copy keeps the invariant and all contents |
| `KernelSpec.StoreInv` | pset3/kernel.cc:303-349 | A store through a writable mapping changes the contents of that address only, because the page is not shared |
| `KernelSpec.IncInv` | pset3/kernel.cc:616 | Raising a shared page's count restores exactness and stays within 15 |
| `KernelSpec.AllocatableIs` | pset3/k-hardware.cc:336-344 | The pages that may be handed out, by their addresses: not page 0, the device hole, the kernel or its stack, and below 2 MiB |
| `PageTableSpec.GatheredRights` | pset3/k-vmiter.cc:28-35 | The rights gathered entry by entry hold a bit exactly when every entry of the walk holds it (Intel SDM volume 3A, section 4.6) |
| `PageTableSpec.FourLevels` | pset3/x86-64.h:17-47 | Translation through four tables in the bits of the processor's manual (Intel SDM volume 3A, section 4.5): nine bits of the address choose each entry, and a right holds exactly when all four entries have its bit |
| `PageTableSpec.LargePage` | pset3/x86-64.h:29-40 | A present entry with the page-size bit in a second-lowest table maps 2 MiB |
| `PageTableSpec.CanonicalIs` | pset3/x86-64.h:68-70 | Canonical addresses are those whose bits 47 to 63 are all alike |
| `PageTableSpec.WalkContinues` | pset3/k-vmiter.cc:42-58 | A walk may be resumed at any table page on its path |
| `PageTableSpec.TableAtSame` | pset3/k-vmiter.cc:42-55 | Two addresses that agree above a level share the table page and the rights there |
| `PageTableSpec.BlockSharesEntry` | pset3/k-vmiter.hh:172-174 | All addresses in the block of an entry are reached through that entry |
| `VmIter.VmIterator.RealFind` | pset3/k-vmiter.cc:42-58 | The incremental move ends at the entry, level and rights of a fresh walk from the root, for canonical and non-canonical addresses |
| `VmIter.VmIterator.Down` | pset3/k-vmiter.cc:28-40 | Going down ends where a fresh walk ends |
| `VmIter.VmIterator.Find` | pset3/k-vmiter.hh:215-222 | Moving to the same address is no move; to another is a fresh walk |
| `VmIter.VmIterator.Next` | pset3/k-vmiter.cc:60-66 | Moves on to the next page or just past a whole empty block, from the very last page round to 0; every page skipped is unmapped |
| `VmIter.VmIterator.NextRange` | pset3/k-vmiter.hh:239-241 | Moves to the end of the current block, all of which is reached through the same entry; from the very last block round to 0 |
| `VmIter.VmIterator.constructor` | pset3/k-vmiter.hh:159-162 | A new iterator stands where a fresh walk for its address stops |
| `VmIter.VmIterator.ReadsIsTranslation` | pset3/k-vmiter.hh:175-199 | pa() and perm() of the iterator are the hardware's translation of its address |
| `VmIter.VmIterator.TryMap` | pset3/k-vmiter.cc:68-100 | Success changes the translation of the page at the address and of no other; failure, exactly when the pages run out, changes no translation; the tree grows only by tables on the path, taken in order |
| `VmIter.VmIterator.LinkNext` | pset3/k-vmiter.cc:85-94 | Linking one empty table changes no translation |
| `VmIter.VmIterator.SetCurrent` | pset3/k-vmiter.cc:96-98 | Setting a lowest-level entry changes the translation of its own page only |
| `PageTree.LinkTranslates` | pset3/k-vmiter.cc:91-92 | An empty table linked where nothing was present leaves every address's translation as it was |
| `PageTree.LeafSetElsewhere` | pset3/k-vmiter.cc:96-98 | An entry changed in the lowest level is not seen from any other page |
| `PageTree.LinkRep` | pset3/k-vmiter.cc:87-93 | The tree with the new table is again a tree that memory represents |
| `PageTree.LowBitsTell` | pset3/x86-64.h:66-70 | Canonical addresses with the same table and index are on the same page |
| `PageTree.TableAtKey` | pset3/k-vmiter.cc:28-35 | A walk reaches a table exactly when the tree has one for the address, and it is that table's page |
| `AddressSpace.MapPage` | pset3/k-vmiter.cc:68-100 | With page tables in memory that show the mappings of every process: mapping or unmapping one page of one process leaves tables that show exactly the changed mappings, of this process and all others; it fails exactly when the pool has fewer pages than tables are missing on the way, and then they show exactly the old ones; only tables on the way are added |
| `AddressSpace.LinkOne` | pset3/k-vmiter.cc:85-94 | One turn of that loop by itself: the next table on the way to a page is linked, and the page tables of all processes still show the same mappings |
| `AddressSpace.Lookup` | pset3/k-vmiter.hh:175-199 | An iterator reads from the page tables what the kernel's map says of the page |
| `AddressSpace.NewRoot` | pset3/k-hardware.cc:285-296 | A cleared unused page is the root of an empty address space, and no other address space changes |
| `AddressSpace.FreeSpace` | pset3/kernel.cc:175-179 | Freeing a process's table pages clears each exactly once and leaves the page tables of all other processes showing their mappings |
| `Paged.RunOnPageTables` | pset3/kernel.cc:393-460 | Over any run, each call's changes to page tables are made in memory through the iterators; after each call the hardware translates every page of every process as the kernel's map says, page number, write, user and copy-on-write bits; the page it finds for user code holds the bytes of the eagerly copying machine, and is no page table |
| `Paged.StepOnPageTables` | pset3/kernel.cc:393-460 | One call with its changes to page tables made in memory keeps memory showing the kernel's maps, and is the step of the kernel |
| `Paged.PerformAll` | pset3/k-vmiter.cc:68-100 | From any memory, performing a log of root, table, mapping and freeing changes leaves page tables that show what the log comes to, for all processes |
| `Paged.Perform` | pset3/k-vmiter.cc:68-100 | One change made in memory is that change of the address spaces and of no other |
| `PtIter.FreeTables` | pset3/kernel.cc:175-179 | Clearing each page as the walk goes on, the walk still frees every table page exactly once, in order, the root last |
| `PtIter.PtIterator.Down` | pset3/k-vmiter.cc:108-138 | From any phase of the walk: it ends at the next table in depth-first order, or after the last one; it reads only pages of tables not yet visited, and terminates |
| `PtIter.PtIterator.Next` | pset3/k-vmiter.hh:271-273 | The next table after the current one, though the current one's page may already be cleared |
| `PtIter.PtIterator.constructor` | pset3/k-vmiter.cc:103-106 | The first table in depth-first order, or the end when there is none |
| `PtIter.ChildrenFirst` | pset3/k-vmiter.cc:108-138 | In a complete walk a table comes before its parent |
| `PtIter.Visited` | pset3/kernel.cc:175-179 | After the next table is visited its page may be cleared: what is left still represents the unvisited tables |
| `PtIter.Up` | pset3/k-vmiter.cc:119-128 | Leaving a table, that very table is next, and the restart from the root is on the way to it |
| `PtIter.Along` | pset3/k-vmiter.cc:119-131 | Moving to the next entry passes over no table |
| `PtIter.Over` | pset3/k-vmiter.cc:122-127 | Leaving the root means every table has been visited |
| `PtIter.Leaf` | pset3/k-vmiter.cc:112-114 | The first lowest-level table met is the next one |
| `LockMachine.LockTableOverRuns` | pset6/io61.cc:504-597 | Over every run of any number of threads: each count is the number of ranges held there, and all of them are the chunk owner's; ranges of different threads share no byte; a sleeping thread always has a conflicting chunk |
| `LockMachine.StepInv` | pset6/io61.cc:532-597 | Every locking, unlocking, retry and spurious wake-up keeps that invariant |
| `LockMachine.RangesDisjoint` | pset6/io61.cc:504-520 | Ranges held by different threads never overlap |
| `LockMachine.UnlockAssertionHolds` | pset6/io61.cc:580-597 | The assertions in unlock hold for every range a thread holds |
| `LockMachine.LockOpShape` | pset6/io61.cc:559-573 | Acquiring is all or nothing, and it succeeds exactly when no chunk conflicts |
| `LockMachine.ConflictIff` | pset6/io61.cc:504-510 | In every reachable state, a range conflicts if and only if another thread holds a range that shares a chunk with it |
| `LockMachine.UnlockShape` | pset6/io61.cc:580-597 | Unlocking gives back one range and wakes every sleeper |
| `LockMachine.CountRemove` | pset6/io61.cc:580-597 | Giving back one range lowers the count of exactly the chunks it covers |
| `LockTable.RegionLocks.constructor` | pset6/io61.cc:82-88 | Chunk size is the file size over the number of chunks, at least 16; nothing is locked |
| `LockTable.RegionLocks.IsOverlap` | pset6/io61.cc:504-510 | True exactly when some chunk of the range is locked by another thread |
| `LockTable.RegionLocks.LockRegion` | pset6/io61.cc:512-520 | The loop locks exactly the chunks the range touches, once each |
| `LockTable.RegionLocks.TryLock` | pset6/io61.cc:532-547 | -1 and no change on conflict, otherwise the whole range is taken; an empty range succeeds at once |
| `LockTable.RegionLocks.LockTurn` | pset6/io61.cc:559-573 | One turn of the waiting loop: sleep exactly on conflict, otherwise take the range |
| `LockTable.RegionLocks.Unlock` | pset6/io61.cc:580-597 | Exactly the chunks of the range are given back once |
| `LockSpec.TouchesIffByte` | pset6/io61.cc:504-520 | The chunks the loops visit are exactly those that hold a byte of the range |
| `LockSpec.GuardIsLastChunk` | pset6/io61.cc:504-506 | The loop guard stops after the chunk of the last byte |
| `BankSerial.Serialisable` | pset6/ftxxfer.cc:17-52 | For every interleaving there is an order of the committed transfers, made of those of the running threads only and agreeing with each thread's own order, whose one-by-one execution gives the same balances |
| `BankSerial.RunInv` | pset6/ftxxfer.cc:17-52 | Over every run the shared balances agree with the log of committed transfers, all of them by the running threads, up to the write each thread is in the middle of |
| `BankSerial.LogIsSerialOrder` | pset6/ftxxfer.cc:26-50 | That log is an order of the transfers which gives the balances |
| `BankSerial.StepInv` | pset6/ftxxfer.cc:26-50 | Each step keeps the agreement of the shared balances with the serial order |
| `BankMoney.MoneyOverRuns` | pset6/ftxxfer.cc:41-48 | Over every run without a negative draw the balances and the money in flight sum to the starting total, every balance is in 0..9999999, every balance about to be written fits its field, and replaying the ledger line by line never goes below zero and agrees with every account outside a transaction; in general this holds over the runs of safe draws, which are exactly the runs that keep the balances in range |
| `BankMoney.StaysInRangeIff` | pset6/ftxxfer.cc:41-48 | A run keeps every balance, and every balance about to be written, in range if and only if each of its draws is safe when it is made |
| `BankMoney.NonNegativeIsSafe` | pset6/ftxxfer.cc:41-44 | Every draw of a run without negative draws is safe when it is made, because the balances read are in range |
| `BankMoney.RunMoney` | pset6/ftxblockchain.cc:29-61 | Over every run of safe draws money is conserved, balances stay in range and the ledger agrees |
| `BankMoney.InRangeIffSafe` | pset6/ftxxfer.cc:41-44 | A transfer keeps both balances in range if and only if the drawn amount is safe; every non-negative amount is |
| `BankMoney.UnsafeDrawOverdraws` | pset6/ftxxfer.cc:41-44 | A negative draw that takes an account below zero |
| `BankMoney.OutsideAgrees` | pset6/ftxblockchain.cc:29-61 | Outside transactions the ledger's replay is the balance |
| `BankMoney.TwoLines` | pset6/ftxblockchain.cc:54-61 | A report of two lines keeps the replay from going below zero between them |
| `BankMoney.StepMoney` | pset6/ftxblockchain.cc:29-61 | Every safe step conserves money and keeps the ledger in agreement |
| `BankMoney.AppendLedger` | pset6/ftxblockchain.cc:54-61 | Appending inside the critical section makes the ledger agree with the balances again |
| `BankLaws.SerialMoves` | pset6/ftxxfer.cc:41-48 | One transfer alone: when both balances can take the amount, negative ones included, exactly that amount moves; any other non-negative amount moves as much of it as empties the one account or fills the other, and never more; no other account changes |
| `BankLaws.SerialTakes` | pset6/ftxxfer.cc:41-48 | For every amount, however negative: what moves is the largest number that is at most the amount, the first balance, and the room left in the second account; a result of more than seven characters is not written |
| `BankLaws.TransfersExplained` | pset6/ftxxfer.cc:17-52 | Over every run of safe draws there is a history of balances, each transfer by itself moving what it must, from the first balances to those of the run; each thread's transfers are those it drew, in its order; a thread that is through has made all of them; and the ledger's lines for an account nobody is in sum to what it has gained |
| `BankLaws.AsksOverRuns` | pset6/ftxxfer.cc:31-50 | Over every run, what a thread has done is what it drew between the accounts it picked, in that order, but for the transfer it is still writing; a thread that is through has made all its transfers |
| `BankLaws.StepAdvances` | pset6/ftxxfer.cc:26-50 | Each step leads a thread to the next of the eleven places of the transfer and changes what it must there, and no other thread |
| `BankLaws.HeldByPlace` | pset6/ftxdb.hh:54-76 | The ranges a thread holds at each place of a transfer are exactly the 16-byte records of its accounts: none at first, the smaller number first, both while it reads and writes, and the smaller number last |
| `BankLaws.LedgerSums` | pset6/ftxblockchain.cc:54-61 | Replaying the ledger gives each account what its own lines sum to |
| `BankProgress.DeadlockFree` | pset6/ftxxfer.cc:26-30 | At any chunk size and in every reachable state, either all threads are done or some step lowers a measure that starts at eleven times the transfers and never grows |
| `BankProgress.HighestOwnerNotBlocked` | pset6/ftxxfer.cc:26-30 | The owner of the highest locked chunk is never blocked, though accounts may share or straddle chunks |
| `BankProgress.StepLowersTotal` | pset6/io61.cc:559-572 | Every step lowers the work left, but for retries and sleeps that get nowhere, which keep it |
| `BankProgress.SomebodyMoves` | pset6/ftxxfer.cc:26-50 | While a thread is unfinished, some thread has a step that makes progress |
| `Transfers.Transfer` | pset6/ftxxfer.cc:56-96 | The whole program over the bytes of an account file and the arrays of the lock table: for every interleaving and however short the writes, the characters on the disk at the end stand for the balances some serial order of the transfers leaves; names are unchanged; without negative draws the money is sound, and every transfer of that order has moved exactly what was drawn, as far as both accounts could take it |
| `Transfers.Program.Run` | pset6/ftxxfer.cc:17-52 | The steps are taken one after the other, up to the first that cannot be, and the state is the transfer machine's state after them |
| `Transfers.Program.Act` | pset6/ftxxfer.cc:26-50 | One step of a thread on the lock arrays and the file is exactly the transfer machine's step |
| `Transfers.Program.LockAccount` | pset6/ftxdb.hh:62-68 | One turn of waiting for an account: a thread sleeps exactly when the arrays show a conflict, and otherwise the account's chunks are its own |
| `Transfers.Program.UnlockAccount` | pset6/ftxdb.hh:71-76 | Giving an account back in the arrays wakes every sleeper, and the assertions of the unlock hold |
| `Transfers.Program.ReadBalance` | pset6/ftxdb.hh:81-91 | The balance read through the cache is the machine's balance |
| `Transfers.Program.WriteBalance` | pset6/ftxdb.hh:95-112 | The balance written through the cache is what the machine stores, no name changes, and every byte of the file that changes lies in a range the thread has locked |
| `Transfers.Program.Close` | pset6/ftxxfer.cc:83-84 | Closing the file leaves on the disk what the cache showed |
| `Bank.StepKeepsLocks` | pset6/ftxdb.hh:54-76 | Transaction steps keep the lock table in agreement with the accounts each thread is in |
| `Bank.Exclusive` | pset6/ftxdb.hh:62-76 | Two threads are never in the same account |
| `PosCache.File.Pread` | pset6/io61.cc:441-455 | Returns the logical file's bytes up to the next multiple of 8192 or the end, and changes nothing of the logical file |
| `PosCache.File.Pwrite` | pset6/io61.cc:465-480 | Replaces exactly the bytes up to the next multiple of 8192 or the end by the caller's, and leaves all others; nothing when it fails |
| `PosCache.File.Pfill` | pset6/io61.cc:487-502 | Refilling the slot, or failing to, leaves the logical file as it was |
| `PosCache.File.FlushDirtyPositioned` | pset6/io61.cc:400-415 | Short, interrupted and failed writes leave the logical file as it was; success makes the disk equal to it |
| `PosCache.File.WriteBack` | pset6/io61.cc:404-412 | The write-back loop through any kernel answers only writes what the slot covers |
| `AccountText.BalanceRoundTrip` | pset6/ftxhelpers.cc:55-109 | Parsing a record whose field was unparsed gives the same balance, for every balance that fits |
| `AccountText.FitsIffShort` | pset6/ftxhelpers.cc:95-106 | A balance unparses if and only if it lies in -999999..9999999 |
| `AccountText.NameIndependentIff` | pset6/ftxhelpers.cc:62-70 | The parsed name does not depend on the balance if and only if the name field holds a space or the caller's buffer ends at the field |
| `AccountText.NameRunsOn` | pset6/ftxhelpers.cc:62-70 | A full-width name takes digits of the balance into it |
| `AccountText.Parse` | pset6/ftxhelpers.cc:55-93 | However the field parts into spaces, a plus, a minus, digits d1..dm and the rest, the answer is the signed sum of (di - '0') * 10^(m-i), and an error exactly when there is no digit; the name is the characters up to the first space, as many as there is room for |
| `AccountText.ParseName` | pset6/ftxhelpers.cc:62-70 | The name loop copies the record's name and ends it with a zero byte |
| `AccountText.SkipToNumber` | pset6/ftxhelpers.cc:74-81 | The skipping loop ends where the balance starts |
| `AccountText.Unparse` | pset6/ftxhelpers.cc:95-109 | Of the 8 bytes handed out, the one at decimal place k is '0' + b / 10^k mod 10, of -b after a minus for a negative balance, with spaces in front and a newline at the end; none exactly outside -999999..9999999 |
| `AccountText.PiecesRead` | pset6/ftxhelpers.cc:74-90 | A record whose balance field comes in those pieces is read as the number of its digits, and as none without digits |
| `AccountText.EveryText` | pset6/ftxhelpers.cc:74-90 | Every field comes in such pieces |
| `AccountText.CharsShown` | pset6/ftxhelpers.cc:95-106 | The characters of the field of every balance that fits |
| `AccountText.DigitsAt` | pset6/ftxhelpers.cc:98-100 | The digit at each decimal place of a number's text |
| `AccountFile.RecordInOneSlot` | pset6/io61.cc:493-499 | No record straddles a cache slot, so reads and writes of one are never short |
| `AccountFile.WriteOneBalance` | pset6/ftxdb.hh:95-112 | Writing the field changes one account's balance and no name, nor any other record |
| `AccountFile.Db.Read` | pset6/ftxdb.hh:81-91 | Reading through the cache gives the balance and name in the logical file |
| `AccountFile.Db.Write` | pset6/ftxdb.hh:95-112 | Writing through the cache changes one balance only, and succeeds exactly when it fits while the kernel does not fail; then the file's balances change as in the write step of the transfer machine |
| `HeapSpec.FreeIsFunctionOfAllocated` | pset1/m61.cc:201-228 | Two free lists that go with the same allocated blocks are equal: the free blocks are exactly the maximal gaps |
| `HeapSpec.FreeListUnique` | pset1/m61.cc:205-228 | A coalesced list is determined by the bytes it covers |
| `HeapSpec.FitTestExact` | pset1/m61.cc:87-95 | On sizes that are multiples of 16 the fit test without the padding is the test with it |
| `HeapSpec.FirstFitIsLowest` | pset1/m61.cc:81-104 | The first block that fits is the lowest gap of that many bytes, and none fits exactly when there is no such gap |
| `HeapSpec.MallocOk` | pset1/m61.cc:86-116 | Cutting a block keeps the tiling of the heap and its alignment |
| `HeapSpec.FreeOneOk` | pset1/m61.cc:201-228 | Freeing and joining both neighbours keeps the tiling, alignment and maximality |
| `HeapSpec.FreeUndoesMalloc` | pset1/m61.cc:201-228 | Freeing what was just allocated restores the free list and the allocations |
| `HeapSpec.CarveOk` | pset1/m61.cc:99-101 | Cutting removes exactly the bytes of the new block from the free ones |
| `HeapSpec.ReturnedOk` | pset1/m61.cc:205-228 | Coalescing adds exactly the freed bytes and leaves no two adjacent free blocks |
| `Heap.M61.Malloc` | pset1/m61.cc:73-137 | Fails exactly when the size reaches the buffer's or no gap holds 16*(sz/16+1) bytes, counting the failure; otherwise returns the lowest such gap, marked behind the payload, with all six counters updated, and no other byte changes |
| `Heap.MallocSays` | pset1/m61.cc:73-137 | The same in numbers: refused exactly when no 16-byte rounded extent fits between the blocks below 8388608; else the lowest such address, '!' in every padding byte and no other byte changed, the six counters and the set of freed pointers |
| `Heap.CallocSays` | pset1/m61.cc:237-252 | The same of calloc, for count * sz bytes, all of them zero |
| `Heap.FreeSays` | pset1/m61.cc:144-229 | The same of free: each outcome on the bytes, blocks and freed pointers, and what it leaves of blocks, counters and freed pointers |
| `Heap.GrowSays` | pset1/m61.cc:297-305 | The same of a growing realloc: the old payload at the beginning of the new block, the old block gone, all counters |
| `Heap.FreedTwice` | pset1/m61.cc:151-158 | A pointer freed again, with nothing allocated there since, is a double free, and nothing changes |
| `Heap.M61.FindFit` | pset1/m61.cc:81-104 | The search loop finds that lowest gap |
| `Heap.M61.Take` | pset1/m61.cc:89-125 | Padding, maps and statistics after the block is found, as one change of the heap's value |
| `Heap.M61.Paint` | pset1/m61.cc:94-96 | Exactly the given bytes are painted |
| `Heap.M61.Free` | pset1/m61.cc:144-229 | Each outcome exactly on its condition: nothing, freed, double free, outside the heap, not allocated, wild write; a live block is freed exactly when its padding is intact, and no byte of the heap changes |
| `Heap.M61.PaddingIntact` | pset1/m61.cc:185-195 | Any changed padding byte is found |
| `Heap.M61.Containing` | pset1/m61.cc:167-174 | The block reported as containing the pointer does contain it |
| `Heap.M61.Release` | pset1/m61.cc:197-228 | The block leaves the allocations and the statistics, and the heap stays well formed |
| `Heap.M61.Coalesce` | pset1/m61.cc:203-228 | Inserting and joining with the next and the previous block gives the list with the block returned |
| `Heap.M61.Calloc` | pset1/m61.cc:237-252 | Fails exactly when the product or a factor is too large or no gap holds it; otherwise the whole payload is zero, and the heap has changed by that block only |
| `Heap.M61.Fill` | pset1/m61.cc:249 | Filling part of a payload changes exactly those bytes and no padding |
| `Heap.M61.Realloc` | pset1/m61.cc:264-306 | Each of its five branches on conditions over pointer, size and live blocks: a null pointer allocates, size 0 frees and gives null, a pointer that is not live gives null and changes nothing, a larger size moves the payload to a new block and frees the old one, any other size changes size and padding in place; the heap stays well formed but for a smaller size |
| `Heap.M61.Grow` | pset1/m61.cc:297-305 | The grown block holds the old bytes; the old block is freed when its padding is intact; nothing else changes |
| `Heap.M61.Shrink` | pset1/m61.cc:288-295 | The size is overwritten before it is used, so the extent shrinks while the free list does not grow |
| `Heap.ShrinkLosesBytes` | pset1/m61.cc:291-292 | The heap stays tiled after the shrinking branch if and only if the size was the same |
| `Heap.ShrinkByOne` | pset1/m61.cc:288-295 | A heap with one block of 24 bytes is well formed, and is not once the block has been made one byte smaller |
| `Heap.PaddingFits` | pset1/m61.cc:91-97 | Payload and padding together are the next multiple of 16 above the size and stay in the block found |
| `HeapClient.ClientRun` | pset1/m61.cc:73-306 | From the empty heap, every call of any list of mallocs, callocs, frees, stores and reallocs, of the null pointer, to size 0, to the same and to larger sizes, is made, up to the first outside the payloads live at the time; each answer and each change is the one the map of live payloads allows, and no free ever aborts |
| `HeapClient.ClientStep` | pset1/m61.cc:73-306 | One such call is one step on the map of live payloads: refused exactly when no room is left, else at the lowest room; it leaves every other payload's bytes alone and every marker in place |
| `HeapClient.Retained` | pset1/m61.cc:94-125 | Over any stretch of a run, a payload byte keeps its value until its block is freed or reallocated or the byte itself is stored to |
| `HeapClient.LastStored` | pset1/m61.cc:94-125 | What was stored last is what is found, however many other calls came between |
| `SeqWrite.SameFile` | pset6/io61.cc:216-277 | Any calls of writec, write, seek and flush leave the same file, and give the same results, as the unbuffered version, through any short and interrupted writes |
| `SeqWrite.Writer.WriteC` | pset6/io61.cc:216-236 | One byte is added at the logical position, the buffer being flushed first when full; when that flush fails nothing is added and the file is half-way through the pending bytes |
| `SeqWrite.Writer.Write` | pset6/io61.cc:246-277 | The loop adds all bytes at the logical position; when a flush fails it reports what was taken, and the file is half-way through the bytes pending then |
| `SeqWrite.Writer.FlushDirty` | pset6/io61.cc:382-398 | From any state and through any kernel answers: success writes the pending bytes at the kernel's position; failure leaves a prefix of them written and all of them pending |
| `SeqWrite.Writer.Flush` | pset6/io61.cc:292-300 | The same for a flush of a dirty or a clean buffer, a first flush or one after a failure |
| `SeqWrite.Writer.FlushClean` | pset6/io61.cc:417-426 | A clean flush leaves the contents, and moves a file that can seek to the logical position |
| `SeqWrite.Writer.Seek` | pset6/io61.cc:307-331 | Flushes and moves; fails exactly when the flush fails, the file cannot seek or the offset is negative, and says what each failure leaves |
| `SeqWrite.RetryRightIff` | pset6/io61.cc:382-398 | Flushing again after a failure gives the right bytes if and only if none had been written, or the pending bytes repeat with that period and the file already goes on with them; at the end of the file only if none had; the position is off by what had been written |
| `SeqWrite.FlushTwice` | pset6/io61.cc:292-300 | A failing flush and the flush after it: the first one's bytes stay, the second writes from the first pending byte again, and the file has the right bytes exactly under that condition |
| `SeqWrite.RetryDoubles` | pset6/io61.cc:382-398 | Two bytes pending, one written before the failure: the flush after it leaves three bytes |
| `SeqRead.SameBytes` | pset6/io61.cc:112-209 | Any calls of readc, read and seek return the same bytes as the unbuffered version, mapped or not, through any short and interrupted reads; the return codes are the same but for reads at the end of a file that cannot be mapped, where the unbuffered version gives 0 and this one -1 |
| `SeqRead.SameReplies` | pset6/io61.cc:181-185 | Two such runs answer alike if and only if no read is made at the end of the file, and they differ in the code of such reads only |
| `SeqRead.EmptyPipe` | pset6/io61.cc:181-185 | One byte asked of an empty pipe: the unbuffered version answers 0, this one -1 |
| `SeqRead.Reader.ReadC` | pset6/io61.cc:112-154 | The next byte of the file, or -1 exactly at its end while the kernel does not fail |
| `SeqRead.Reader.ReadCache` | pset6/io61.cc:163-185 | The loop over slots returns the next bytes, fewer only at the end of the file or on a failure; -1 exactly when there are none and some call had failed before, at the end of the file too |
| `SeqRead.Reader.Read` | pset6/io61.cc:187-209 | The same for the cached path; the mapped path gives the count of bytes |
| `SeqRead.Reader.Fill` | pset6/io61.cc:362-376 | Refilling keeps the logical position and comes back empty only at the end of the file or on a failure |
| `SeqRead.Reader.Seek` | pset6/io61.cc:307-352 | Moves the logical position; succeeds exactly inside the cached window, or when the file can seek and the offset is not negative |
| `SlowIo.SlowFile.Read` | pset4/slow-io61.cc:74-89 | The byte-at-a-time loop returns the next bytes of the file; -1 exactly when its first call fails, 0 at the end of the file |
| `SlowIo.SlowFile.ReadC` | pset4/slow-io61.cc:49-61 | One read call, -1 at the end of the file, where errno is cleared, and on a failure, where it is not 0 |
| `SlowIo.SlowFile.Write` | pset4/slow-io61.cc:114-127 | The byte-at-a-time loop writes a prefix, up to the first call that does not take its byte, and -1 when that is the first |
| `SlowIo.SlowFile.WriteC` | pset4/slow-io61.cc:96-104 | One write call of the byte c converted to unsigned char; it succeeds exactly when the kernel takes the byte |
| `SlowIo.SlowFile.Seek` | pset4/slow-io61.cc:148-156 | Moves the kernel's position; fails exactly when the file cannot seek or the offset is negative |
| `OpenFile.PutGet` | pset4/slow-io61.cc:74-127 | Bytes just written are what a read from there returns |
| `OpenFile.PutSays` | pset6/io61.cc:382-398 | Written bytes are in their place, all others as before, and a gap before them is zeros |
| `OpenFile.GetSays` | pset6/io61.cc:362-376 | The bytes read are those from the position on, as many as asked for or left |
| `Numbers.PrintThenParse` | pset3/lib.cc:252-399 | What is printed is the number's text, the parse reads all of it, and gives back every 64-bit number in bases 10, 16 and -16, through the 32-byte buffer |
| `Numbers.FromChars` | pset3/lib.cc:252-283 | Reads exactly the leading digits; out of range exactly when the number they denote is at least 2^64, however long; no number exactly when there is no digit |
| `Numbers.FromCharsSigned` | pset3/lib.cc:285-299 | Out of range exactly when the signed number is outside -2^63..2^63-1 |
| `Numbers.WouldOverflow` | pset3/lib.cc:268-272 | The test before the multiplication is exact |
| `Numbers.Strtol` | pset3/lib.cc:230-248 | However the text parts into blanks, sign, mark of the base and digits, base 0 taking 16, 8 or 2 from 0x, 0o or 0b, 8 from 0 and else 10: the signed sum of the digits, each times its power of the base, held to -2^63..2^63-1; the end pointer |
| `Numbers.Strtoul` | pset3/lib.cc:211-228 | For the same pieces, the sum of the digits, or 2^64-1 when it is out of range, if and only if it is not a negated out-of-range one, for which the result is 1 |
| `Numbers.NegatedTooLarge` | pset3/lib.cc:211-228 | The text of minus 2^64 is such a number: 1 is returned where 2^64-1 is expected |
| `Numbers.ReadStart` | pset3/lib.cc:188-218 | Blanks, sign and prefix are skipped as described by the functions |
| `Numbers.AnswersRight` | pset3/lib.cc:188-248 | What both functions answer, from the pieces of the text |
| `Numbers.EveryNumeral` | pset3/lib.cc:188-248 | Every text comes in such pieces |
| `Numbers.LeadsIs` | pset3/lib.cc:252-283 | The number read is the sum of the leading digits, each times its power of the base |
| `Numbers.DigitIs` | pset3/lib.cc:258-267 | Which character is which digit in every base, and which is none |
| `Numbers.PrintNumber` | pset3/lib.cc:370-399 | The buffer ends with the last characters of the number's text, with or without separators, all of them when they fit, and a zero byte |
| `Numbers.ReadsBack` | pset3/lib.cc:390-397 | The printed digits denote the number, in any base from 2 to 16 |
| `Numbers.LengthIff` | pset3/lib.cc:390-398 | The text has at most n digits if and only if the number is below base^n |
| `Numbers.AlwaysFits` | pset3/lib.cc:402-403 | In bases 10 and 16 every 64-bit number fits the 32-byte buffer with or without separators, and its digits keep its value |
| `Numbers.Separated` | pset3/lib.cc:384-392 | Without its separators the text is the plain text |
| `Numbers.SeparatedLength` | pset3/lib.cc:384-392 | There is one separator to every full group of digits but the first |
| `Numbers.PrintedRight` | pset3/lib.cc:370-399 | Every character of the text by its place from the right: in base 10 a comma at each place that is 3 modulo 4, in others an apostrophe at each that is 4 modulo 5, else a digit of '0'..'9', 'A'..'F' or, for negative bases, 'a'..'f'; and the digits are worth the number |
| `Shell.RunList` | pset5/sh61.cc:212-319 | For any exit statuses, the loop starts and waits for exactly the processes, in the order, that left-associative evaluation of the and-or lists prescribes |
| `Shell.RunLine` | pset5/sh61.cc:327-457 | Parsing and running a foreground line: the list's words and operators are the line's, the events are those of the list's evaluation, and pipeline by pipeline: one is run when it is the first, after an and when the last status is a success, after an or when it is not; it starts its commands up to the first empty one, and then waits |
| `Shell.ParseLine` | pset5/sh61.cc:327-457 | Flattening the list gives back the tokens of the line |
| `Shell.OneReading` | pset5/sh61.cc:327-457 | No two lists flatten to the same tokens, so the parse is the only one |
| `Shell.AddTokenAdds` | pset5/sh61.cc:374-410 | Each token adds exactly itself to what the list flattens to |
| `Shell.CommandList.AddConnective` | pset5/sh61.cc:391-402 | A connective marks the last pipeline and opens a new one |
| `Shell.Ended` | pset5/sh61.cc:271-295 | At the end of a pipeline what happened is the pipeline's evaluation, empty commands included |
| `Shell.Move` | pset5/sh61.cc:293-315 | The run flag after a pipeline is what the and-or list wants for the next |
| `Shell.ListOneByOne` | pset5/sh61.cc:212-319 | The evaluation of a list takes its conditionals one by one, each starting afresh |
| `Shell.ConditionalInTurn` | pset5/sh61.cc:293-315 | The evaluation of an and-or list takes its pipelines in turn, each on the status of the last one run |
| `Shell.PipelineRuns` | pset5/sh61.cc:243-291 | A pipeline starts its commands up to the first empty one, leaving out an empty one in front, and waits if it started any |
| `Shell.SequenceJoins` | pset5/sh61.cc:374-389 | Two lists one after the other have a semicolon between their tokens |
| `Shell.ConnectiveJoins` | pset5/sh61.cc:391-402 | Two and-or lists one after the other have between their tokens the connective the first one ends with |
| `Shell.BarJoins` | pset5/sh61.cc:404-410 | Two pipelines one after the other have a bar between their tokens |
| `Shell.WordsOnly` | pset5/sh61.cc:447-453 | A list of one command is its words |

## Left out

- Hardware, console, interrupts, the scheduler, `sleep`, `page_alloc`, address translation caches and user instructions: calls into code outside the modelled files, or not part of the modelled calls.
- Kernel.Machine.EnsureTables: the kernel's class keeps its address spaces as maps, with a log of its changes to page tables; `Paged.RunOnPageTables` makes those changes in memory after each call. Page bytes and page-table entries are kept apart; no page is ever both.
- Kernel.Machine.Mmap: requires that the search for a free range is right (some window exists, or the top page is mapped); `FreeRange.FindFreeRightIff` shows this is exactly when it is, and without it the source maps pages above the address space of processes. Lengths are multiples of the page size.
- Kernel.Machine.Munmap: ranges that reach the console page are left out, since freeing it fails the assertion on its count, and so are unaligned addresses with a user page in the range, since unmapping it fails an assertion too.
- Kernel.Machine.Step: user flags always hold present and user bits; a process kills another with a number below 16; loads and stores are of one byte.
- Kernel.Machine.ProcessSetup: the source stops on an assertion when memory runs out; here the call returns false, exactly then, and nothing is said of the state.
- Kernel.Machine.Kalloc: requests above one page are not modelled; no caller makes one.
- VmIter.VmIterator.TryMap: the pages kalloc hands out are a given list of distinct unused pages; the requested rights are not compared with those of the tables above.
- VmIter.VmIterator.Down: the check for uninitialised table pages above 4 GiB is left out.
- Bit operations on addresses are written as division and remainder by powers of two; entries keep a page number and twelve low bits, without the execute-disable bit.
- Eager.Isolated: speaks of a process that makes no call itself; that its own calls see only its own memory is the meaning of `Eager.Next`.
- Lock tables: the number of chunks is a parameter, and ranges are required to end inside the table, as the source assumes; its division leaves the last bytes of some file sizes outside. Shared locks are treated as exclusive by the source, and so here.
- Transfers.Transfer: no system call on the account file fails; the ledger is a sequence of lines, not a file.
- Bank.StepKeepsLocks: each section under the mutex, each database read and write, and the ledger append is one step; sleeps are no steps; the ledger is a sequence of lines, not text.
- BankMoney.MoneyOverRuns: draws are arbitrary integers, as the program's normal distribution may give any; with a negative one the conclusion may fail, exactly as `BankMoney.StaysInRangeIff` says.
- BankProgress.DeadlockFree: needs at least two accounts; with one account the source's loop looks for a second for ever. Fairness of the scheduler is not modelled.
- BankSerial.Serialisable: the other program with the same locks, which picks by different odds, makes the same steps with other draws.
- PosCache.File.Pread: offsets up to the end of the file; past it the source's count of bytes left wraps round and it copies outside the slot. The file's size does not change; reads by the kernel are full.
- AccountFile.Db.Write: `errno` is not modelled in the positioned cache.
- AccountText.Parse: the database's shape is fixed at 16-byte records with the balance in the last 8, as its constructor sets it; to_chars and from_chars of the standard library are modelled by their documentation.
- Heap.M61.Free: an outside pointer is reported as inside a block only when a block lies below it, which the source's step back in its map presumes. The lowest and highest addresses in the statistics are left out, as are leak and error messages.
- HeapClient.ClientRun: the client does not make blocks smaller by realloc, since that breaks the heap (`Heap.ShrinkLosesBytes`); the run's stores are of single bytes.
- Heap.M61.Malloc: the count of active blocks is unbounded; totals and failures wrap at 2^64.
- SeqWrite.SameFile: compares runs in which writes may be short or interrupted but none fails for good; what single calls do after such a failure is in their contracts. The unbuffered version is taken without interruptions, since it gives up at the first.
- SeqRead.Reader.Seek: in a mapped file, seeks past the size are left out, since the next call would stop on the assertion that the position is inside the window; so is flushing a mapped reader. In a file that cannot seek, a seek inside the window succeeds where the unbuffered version fails, so `SeqRead.SameBytes` takes seeks on files that can.
- SeqRead.SameBytes: no read fails for good, and the caller does not clear `errno` between calls; `SeqRead.Reader.Read` says what it returns when the caller does.
- Mixed positioned and sequential use of one file.
- Numbers.PrintNumber: bases 2 to 16, the digits its tables hold; the rest of the formatter (width, precision, prefixes) is left out.
- Numbers.FromChars: the digit characters are those the code accepts, which above base 10 include those that follow '9'.
- Shell.RunList: foreground only; a list is kept as nested sequences, not linked nodes; signals, process groups, pipes, redirections, variables and `cd` are left out, and so are failing waits.
- Shell.ParseLine: tokens are words, `;`, `&&`, `||` and `|`; cutting a line into tokens is left out.
