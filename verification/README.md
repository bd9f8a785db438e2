# Memory manager of the mCertiKOS kernel

A model of the physical and virtual memory manager of this 32-bit x86 kernel, from the E820 map the firmware
reports up to demand paging, the copies between kernel and user memory and the ELF loader, with proofs of what
the layers promise together. A second, smaller part covers the number formatter `printfmt.c`, the parser `strtol`
and the string instructions behind `memmove` and `memset`.

`dafny verify dfyconfig.toml` checks everything.

## How it is built

| file | models |
|---|---|
| `Words.dfy` | bytes, words, the one physical memory, C's conversions between `int` and `unsigned`, `rounddown`, `roundup` |
| `ByteStrings.dfy` | `memmove`, `memset` |
| `FirmwareMap.dfy` | the E820 list of `mboot.c` |
| `PageAllocator.dfy` | `MATIntro`, `MATOp`, `MATInit` |
| `Containers.dfy` | `MContainer` and the ledger of quotas and pages |
| `PageTables.dfy` | directories, tables and the address translation of the hardware, on memory values |
| `PageMaps.dfy` | `map_page`, `unmap_page`, `alloc_ptbl`, `free_ptbl`, `alloc_page` and their flat-map abstraction |
| `Quota.dfy` | what these operations do to the ledger, and why guarded allocation cannot fail |
| `KernelCode.dfy` | `MPTIntro`, `MPTOp`, `MPTComm`, `MPTKern`, `MPTNew` as code over the memory, including all initialisers |
| `Budget.dfy` | what on-demand allocation needs: the missing pages and the missing tables, counted exactly |
| `UserCopy.dfy` | `pt_copyout`, `pt_copyin`, `pt_memset` |
| `CopyFailure.dfy` | the same when memory runs out, and exactly when a copy delivers |
| `Views.dfy` | what one process sees, and that page-table operations of others do not change it |
| `Loader.dfy` | `elf_load` |
| `LoadFailure.dfy` | the same when memory runs out, and exactly when an image is loaded |
| `Strays.dfy` | the same operations on addresses outside the user range, which the source does not keep out |
| `CopyCode.dfy` | the loops of `pmap.c` and `elf.c` and the page-fault handler as code |
| `ImageBytes.dfy` | `elf_load` from the bytes of the image file to the bytes and permissions the process sees |
| `Runs.dfy` | the kernel as a state machine and what every run keeps |
| `Printfmt.dfy`, `Strtol.dfy`, `FormatParse.dfy` | `printnum`, `vprintfmt`, `strtol`, and the way back from text to numbers |
| `Escapes.dfy` | a whole escape of `vprintfmt`: flags, width, precision, length letters, conversion |

Each layer has a specification: functions on values (a `Pmm`, a `Pool`, a `Machine`). Beside it stands the code of
the source, with its loops and its updates in place: a class where the source has global state, whose methods
are proved equal to the specification (`View() == Spec(old(View()))`). The properties are lemmas about the
specification functions, so they hold of the code.

**One memory.** `Mem` is the whole 4 GiB physical memory, byte by byte. Page directories, identity tables and
second-level tables are little-endian words in it, and so are file images, kernel buffers and user pages. That a
write of data never hits a page table is proved (`UserCopy.InPageConfined`, `UserCopy.KernelWrite`), not assumed.
The kernel's own memory (`UserCopy.KernelByte`) is what is neither a static page table nor a page the allocator can hand
out; the buffers of a correct copy lie there. Addresses are translated by `PageTables.Mmu`, which follows section 4.3 (32-bit paging) of the Intel SDM, volume 3A.

**Assumed of the platform.** `LAYOUT`, the addresses of `PDirPool` and `IDPTbl`, is any page-aligned,
non-overlapping pair below `VM_USERLO` and from 1 MiB on, where the kernel is linked (`kern/Makefile.inc:23`). At most
128 firmware entries lie below 4 GiB; the kernel panics otherwise. A kernel buffer is an object of its length and does
not wrap. The steps of a run are steps of processes 1..63 with `perm < 4096` on addresses in `[VM_USERLO, VM_USERHI)`, on
ranges that do not wrap, and with images whose pages are user pages (`Loader.Placed`). The source tests only part of this;
`Strays.dfy` shows what is lost otherwise.

**Owner of a page.** `Pool.owner` records for whom a page was last allocated. It is a history variable: no
operation looks at it, and it exists to say what `usage` counts.

**Levels of care.** `Runs.Level` says how careful callers are. `Any`: `pt_copyin` is given a buffer in the kernel's own
memory, and of what is left nothing is guarded; copies and program loading may run out of pages, images may be malformed
within the user range, containers may be over quota. The structure of the tables and isolation hold all the same. `Started`: a process gets its container by a guarded split before
it takes pages; the ledger balances, also when copies fail. `Paying`: `container_can_consume` is asked before whatever takes
pages, and copies and images come from the kernel's own memory; nobody is ever over quota, no allocation fails, every copy
arrives and every image is loaded.

**What a copy needs.** `Budget.Needs` is computed from memory before the call: one page for every page of the range that is
not mapped, and one for every directory slot it meets that has no table. It is what a copy takes, and what has to be free.

## Promises that do not hold as stated, and exactly when they do

- The comment on `pmmap_merge` says overlapped entries are merged. One pass does not compare a widened entry with its new
  neighbour, and never compares entries with an entry of another type between them. `FirmwareMap.MergeCompleteIff`: no two
  entries of one type meet afterwards if and only if any two that met before were neighbours, and the first of them met none
  before it. `MergeIsOnePass` gives a firmware map for either failure. The covered addresses are right in every case
  (`MergeKeeps`).
- `pt_copyout`, `pt_copyin` and `pt_memset` do not notice that `alloc_page` failed. They go on with physical page 0 and report
  the full length (`CopyFailure.LostCopies`). The bytes arrive if and only if the pages and tables the range misses are not
  more than the free pages (`CopyoutDeliversIff`, `CopyinDeliversIff`, `MemsetDeliversIff`). In every case the invariant, the
  accounts, every mapping, every byte of other processes and the kernel's memory outside page 0 are kept
  (`WriteUserHarmless`, `ReadUserHarmless`).
- `elf_load` reports nothing either. It loads every byte of an image, into new pages throughout, if and only if the image's
  pages and the missing tables are not more than the free pages; into a fresh process it loads every byte only then. Where a
  page was mapped before, a failed allocation leaves the old page in its place (`LoadFailure.ElfLoadsIff`).
- `alloc_page` does not test its address, and `elf_load` passes on whatever the program header says. The invariant survives
  `alloc_page` if and only if the address is a user address or no page is free (`Strays.AllocPageInvIff`). Otherwise the new
  frame is written into the identity tables that all processes share, and all of them lose that translation
  (`EveryoneLoses`); so it is with a page of an image, whatever the file holds (`StrayPage`). An image whose pages are user
  pages harms nobody else, well formed or not (`LoadFailure.ElfLoadContained`).
- The range checks of `pt_copyin` and `pt_copyout` add in 32 bits: they accept exactly the user ranges if and only if no sum
  they accept wraps (`UserCopy.RangeCheckIff`). `pt_memset` has no check. A range that ends with the address space is
  written, over the kernel's memory there (`Strays.HighCopies`).
- `roundup` gives the next multiple if and only if its sum does not wrap (`Words.RoundingBrackets`).
- A page is allocatable "when some usable row contains it" if and only if no row of another type that contains it comes before
  (`PageAllocator.NormalIffUsable`; `RamBehindReserved` is an instance).
- `container_split` checks neither that the parent is in use nor `nchildren` against `MAX_CHILDREN`: the tree survives if and
  only if the child's number is out of range, so that nothing happens, or the parent is in use and has a free slot
  (`Containers.SplitKeepsTreeIff`). It does not check the quota either: the accounts survive if and only if, moreover,
  `container_can_consume` agrees (`SplitKeepsAccountsIff`).
- `container_can_consume` subtracts unsigned numbers: it answers the question if and only if usage is within quota, whatever
  the two fields hold (`GuardExact`).
- `container_alloc` does not ask whether the container is in use, `container_free` does not ask who owns the page: see
  `AllocKeepsLedgerIff`, `ReleaseKeepsLedgerIff`. In every run the page tables' invariant supplies the missing answer
  (`PageMaps.FreePtblInv`). `CarelessCalls` and `FourthChild` reach each of these failures from the boot state.
- The comments on `map_page` and `alloc_page` promise the page index; the code returns the whole directory entry. That is
  why its low 12 bits are 7 and the result cannot be confused with `MagicNumber` (`PageMaps.MapPageView`).
- A loadable segment that covers `VM_DYNLINK` is overwritten there by the linkage table. A byte of a segment reads back as the
  file has it if and only if the linkage page does not cover it or holds the same byte (`Loader.ReadsBackIff`; `LinkageWins`
  is an image that shows it).
- `strtol` does not detect overflow: a printed number comes back if and only if it is below 2^31 (`FormatParse.RoundTrip`).
- `%d` fields: negative numbers padded with spaces, and left-justified ones (which are padded on the left with minus signs),
  do not come back; `FormatParse.SignedRoundTrip` is the exact condition.

## Model

| member | source | states |
|---|---|---|
| Words.RoundingBrackets | kern/lib/types.c:13-21 | rounddown gives the greatest multiple of n up to a; roundup gives the least multiple from a on if and only if a + n - 1 does not wrap, for every n |
| FirmwareMap.ClampExact | kern/dev/mboot.c:154-164 | clamping an entry at 4G neither adds nor loses an address below the top byte, also when base plus length would wrap |
| FirmwareMap.InsertKeeps | kern/dev/mboot.c:55-79 | insertion adds exactly the new range's addresses to those covered |
| FirmwareMap.InsertSorted | kern/dev/mboot.c:66-78 | insertion keeps the list sorted by start |
| FirmwareMap.MergeKeeps | kern/dev/mboot.c:90-99 | merging in place keeps, for every type, exactly the set of covered addresses |
| FirmwareMap.MergeSorted | kern/dev/mboot.c:90-99 | merging keeps the list sorted by start and never longer |
| FirmwareMap.MergeStep | kern/dev/mboot.c:93-98 | one absorption during the traversal leaves the outcome of the whole pass unchanged |
| FirmwareMap.MergeCompleteIff | kern/dev/mboot.c:87-99 | no two entries of one type meet after the pass, neighbours or not, if and only if any two that met before were neighbours and the first of them met none before it |
| FirmwareMap.MergeIsOnePass | kern/dev/mboot.c:90-99 | two firmware maps whose tables still hold two overlapping RAM entries: three overlapping in a row, and two with a reserved entry between them |
| FirmwareMap.RowsExact | kern/dev/mboot.c:134-184 | the finished table is sorted, no longer than the firmware map, and below the top byte covers exactly the firmware's addresses, type by type |
| FirmwareMap.LinkSlot | kern/lib/queue.h:153-163 | linking a slot after an element, or at the head, keeps the chain acyclic and puts the slot at that place |
| FirmwareMap.UnlinkNext | kern/lib/queue.h:182-186 | removing the element after a slot keeps the chain and removes exactly that element |
| FirmwareMap.Pmmap.AllocSlot | kern/dev/mboot.c:37-42 | hands out the next static slot, which is not on the list, or NULL when all 128 are taken |
| FirmwareMap.Pmmap.LastNotAfter | kern/dev/mboot.c:66-72 | the search loop finds the last slot that does not start after the new range |
| FirmwareMap.Pmmap.PmmapInsert | kern/dev/mboot.c:55-79 | the pointer code inserts before the first range that starts later and the list stays well formed; not done exactly for the 129th entry |
| FirmwareMap.Pmmap.PmmapMerge | kern/dev/mboot.c:81-99 | the traversal that removes nodes under itself terminates and computes the one-pass merge |
| FirmwareMap.Pmmap.PmmapInit | kern/dev/mboot.c:134-184 | the loop over the firmware map builds exactly the specified rows, or stops exactly when more than 128 entries lie below 4 GiB |
| FirmwareMap.Pmmap.GetMms | kern/dev/mboot.c:191-206 | returns the start of row idx, 0 past the end |
| FirmwareMap.Pmmap.GetMml | kern/dev/mboot.c:208-223 | returns the length of row idx, 0 past the end |
| FirmwareMap.Pmmap.IsUsable | kern/dev/mboot.c:225-240 | says whether row idx is RAM |
| PageAllocator.NormalExactly | kern/pmm/MATInit/MATInit.c:74-99 | exactly the user pages whose first containing row is RAM become allocatable |
| PageAllocator.MaxEndIs | kern/pmm/MATInit/MATInit.c:37-49 | the address that gives the page count is the end of some row, and no row ends later |
| PageAllocator.PermExactly | kern/pmm/MATInit/MATInit.c:66-99 | page by page: permission 1 outside the user range, 2 where the first containing row is RAM, 0 elsewhere and beyond the page count; nothing allocated; the scan starts at the first user page |
| PageAllocator.NormalIffUsable | kern/pmm/MATInit/MATInit.c:79-96 | "some usable row contains it" is right about a page if and only if no earlier row of another type shadows it |
| PageAllocator.RamBehindReserved | kern/pmm/MATInit/MATInit.c:82-90 | a firmware map of a reserved and a RAM entry over the same addresses yields no allocatable page |
| PageAllocator.InitialisedOk | kern/pmm/MATInit/MATInit.c:21-100 | after initialisation normal pages are existing user pages and nothing is allocated |
| PageAllocator.NormalPagesAreRam | kern/pmm/MATInit/MATInit.c:39-99 | every byte of every allocatable page lies in a firmware entry of type RAM |
| PageAllocator.RamPagesAreNormal | kern/pmm/MATInit/MATInit.c:39-99 | a user page wholly inside one firmware RAM entry and met by no entry of another type is allocatable |
| PageAllocator.ScanFirst | kern/pmm/MATOp/MATOp.c:43-52 | the circular scan stops at the first free normal page in its order, or has seen them all |
| PageAllocator.PallocFirstFit | kern/pmm/MATOp/MATOp.c:31-63 | 0 exactly when no free normal page exists, and then only the cursor moves, to the start of the range; otherwise exactly the page nearest after the cursor is marked and becomes the cursor |
| PageAllocator.PallocResumes | kern/pmm/MATOp/MATOp.c:37-60 | over two calls, whatever happens to the marks between them: the second returns the free normal page nearest after the first one's page in circular order |
| PageAllocator.FreedPageWaits | kern/pmm/MATOp/MATOp.c:37-76 | with three free pages from the start of the range: allocate twice, free the first, and the third is handed out next |
| PageAllocator.AllocationTable.AtIsNorm | kern/pmm/MATIntro/MATIntro.c:49-61 | true exactly for permission above 1 |
| PageAllocator.AllocationTable.AtSetPerm | kern/pmm/MATIntro/MATIntro.c:68-72 | sets the permission and clears the allocation mark of one page |
| PageAllocator.AllocationTable.AtSetAllocated | kern/pmm/MATIntro/MATIntro.c:94-97 | sets the allocation mark of one page and nothing else |
| PageAllocator.AllocationTable.DoPalloc | kern/pmm/MATOp/MATOp.c:31-63 | the scan, which runs past nps and uses nps as "not found", terminates and computes the circular first fit |
| PageAllocator.AllocationTable.Pfree | kern/pmm/MATOp/MATOp.c:73-76 | clears one allocation mark |
| PageAllocator.AllocationTable.ChoosePerm | kern/pmm/MATInit/MATInit.c:79-96 | the search over the rows, in 32-bit arithmetic, stops at the first row that contains the page |
| PageAllocator.AllocationTable.CountPages | kern/pmm/MATInit/MATInit.c:37-49 | the page count is the largest row end, in pages, without overflow |
| PageAllocator.AllocationTable.PmemInit | kern/pmm/MATInit/MATInit.c:21-100 | the table is initialised from the rows, page by page |
| Containers.TreeRooted | kern/pmm/MContainer/MContainer.c:98-124 | parent pointers lead from every container in use to container 0 through containers in use |
| Containers.SplitKeepsTreeIff | kern/pmm/MContainer/MContainer.c:102-107 | for every parent, in use or not: a split keeps the tree if and only if the child is out of range or the parent is in use and has a free slot |
| Containers.SplitFresh | kern/pmm/MContainer/MContainer.c:98-124 | a guarded split takes a slot never used before, numbered 3 * id + 1 + nchildren, or changes nothing |
| Containers.GuardExact | kern/pmm/MContainer/MContainer.c:80-90 | for all 32-bit fields: the unsigned guard means "n <= quota - usage" for every n if and only if usage is within quota |
| Containers.GuardMeans | kern/pmm/MContainer/MContainer.c:80-90 | on balanced accounts no 32-bit conversion matters and the guard is exact |
| Containers.AllocLedger | kern/pmm/MContainer/MContainer.c:131-148 | allocation for a container in use keeps every account balanced, charges one page, and fails only when no page is free |
| Containers.ReleaseLedger | kern/pmm/MContainer/MContainer.c:151-161 | releasing an own or unallocated page keeps every account balanced |
| Containers.SplitLedger | kern/pmm/MContainer/MContainer.c:98-124 | a guarded split keeps every account balanced and within quota |
| Containers.AllocKeepsLedgerIff | kern/pmm/MContainer/MContainer.c:131-148 | the ledger survives an allocation if and only if the container is in use or no page was free |
| Containers.ReleaseKeepsLedgerIff | kern/pmm/MContainer/MContainer.c:151-161 | the ledger survives a release if and only if the caller owns the page or it was not allocated |
| Containers.SplitKeepsAccountsIff | kern/pmm/MContainer/MContainer.c:98-124 | for every parent and 32-bit request: the accounts survive a split if and only if the child is out of range or the parent is in use, has a free slot, and container_can_consume would have agreed |
| Containers.Conservation | kern/pmm/MContainer/MContainer.c:98-161 | total usage minus total non-root quota is the number of allocated pages |
| Containers.UnspentIsFree | kern/pmm/MContainer/MContainer.c:34-43 | unspent quota over all containers is exactly the number of free pages |
| Containers.QuotaIsPromise | kern/pmm/MContainer/MContainer.c:80-90 | a container that may consume n pages finds n free pages |
| Containers.BootLedger | kern/pmm/MContainer/MContainer.c:20-48 | the root quota counted at boot opens a balanced ledger in which all other containers are blank |
| Containers.CarelessCalls | kern/pmm/MContainer/MContainer.c:98-161 | from the boot state: a split by container 5 breaks the tree, an allocation by it breaks the ledger, and so does a release by container 1 of a page of container 0 |
| Containers.FourthChild | kern/pmm/MContainer/MContainer.c:98-124 | from the boot state: three splits of the root keep the ledger, the fourth breaks the tree |
| Containers.ContainerPool.ContainerInit | kern/pmm/MContainer/MContainer.c:20-48 | builds the allocation table and gives container 0 the number of normal pages |
| Containers.ContainerPool.CountNormal | kern/pmm/MContainer/MContainer.c:34-40 | the counting loop counts the normal pages |
| Containers.ContainerPool.CanConsumeMore | kern/pmm/MContainer/MContainer.c:80-90 | the unsigned comparison of the source |
| Containers.ContainerPool.ContainerSplit | kern/pmm/MContainer/MContainer.c:98-124 | updates parent and child in place as specified, nothing else |
| Containers.ContainerPool.ContainerAlloc | kern/pmm/MContainer/MContainer.c:131-148 | takes the first-fit page and charges it, or changes only the cursor |
| Containers.ContainerPool.ContainerFree | kern/pmm/MContainer/MContainer.c:151-161 | frees and credits an allocated page, ignores any other |
| PageTables.SetPteView | kern/vmm/MPTIntro/MPTIntro.c:108-122 | writing one table entry changes that mapping and no other entry of any process |
| PageTables.RemovePdeView | kern/vmm/MPTIntro/MPTIntro.c:82-86 | clearing a directory entry removes that table's mappings and no other entry |
| PageTables.NewTableView | kern/vmm/MPTComm/MPTComm.c:45-65 | hanging a zeroed frame into a directory adds an empty table and changes no other entry |
| PageTables.DataWrite | kern/vmm/MPTIntro/MPTIntro.c:50-147 | a write outside all page structures changes no entry |
| PageTables.KernelIdentity | kern/vmm/MPTOp/MPTOp.c:80-103 | process 0 everywhere, and everybody on kernel addresses, translates to the same address, global exactly in the kernel range |
| PageTables.UserTranslation | kern/vmm/MPTOp/MPTOp.c:17-30 | the hardware's two-level walk of a user address is what get_ptbl_entry_by_va reads |
| PageMaps.AllocPtblInv | kern/vmm/MPTComm/MPTComm.c:45-65 | keeps the invariant; fails moving only the cursor, or installs a table with all 1024 slots empty |
| PageMaps.FreePtblInv | kern/vmm/MPTComm/MPTComm.c:70-81 | keeps the invariant; the page it gives back is the caller's own or was not allocated |
| PageMaps.MapPageView | kern/vmm/MPTKern/MPTKern.c:33-50 | success is a change of one mapping and returns a directory entry with low bits 7; failure happens exactly when a table is needed and no page is free, and changes nothing |
| PageMaps.AllocPageInv | kern/vmm/MPTNew/MPTNew.c:16-33 | keeps the invariant; MagicNumber is returned exactly when the page or the table it needs is not to be had |
| PageMaps.AllocPageFails | kern/vmm/MPTNew/MPTNew.c:21-30 | a failed alloc_page leaves memory, allocation table and containers exactly as before, the scan for pages back at the start of the range |
| PageMaps.AllocPageMaps | kern/vmm/MPTNew/MPTNew.c:16-33 | a successful alloc_page maps a page that was free and touches no other entry of anyone |
| PageMaps.UnmapPageInv | kern/vmm/MPTKern/MPTKern.c:60-77 | removes exactly one mapping and returns the old entry |
| PageMaps.FlatLookup | kern/vmm/MPTOp/MPTOp.c:17-30 | get_ptbl_entry_by_va is a lookup in the flat map (process, page) to entry |
| PageMaps.MapPageRefines | kern/vmm/MPTKern/MPTKern.c:33-50 | map_page is a point update of the flat map, or no change |
| PageMaps.UnmapPageRefines | kern/vmm/MPTKern/MPTKern.c:60-77 | unmap_page is a point removal that returns what was there |
| PageMaps.AllocPtblRefines | kern/vmm/MPTComm/MPTComm.c:45-65 | a new table exposes no stale mapping |
| PageMaps.FreePtblRefines | kern/vmm/MPTComm/MPTComm.c:70-81 | exactly the mappings behind the directory slot disappear |
| PageMaps.AllocPageBytes | kern/vmm/MPTNew/MPTNew.c:16-33 | alloc_page changes no byte outside page tables and formerly free pages |
| Quota.AllocPageLedger | kern/vmm/MPTNew/MPTNew.c:16-33 | charges exactly one page, or two when a table was needed; fails only when fewer pages are free |
| Quota.AllocPagePromise | kern/vmm/MPTNew/MPTNew.c:16-33 | with everybody within quota and the cost granted by container_can_consume, alloc_page succeeds and everybody stays within quota |
| Quota.TwoPagesSuffice | kern/vmm/MPTNew/MPTNew.c:16-33 | container_can_consume(p, 2) is enough for any address |
| Quota.AllocPtblPromise | kern/vmm/MPTComm/MPTComm.c:45-65 | container_can_consume(p, 1) is enough for a table |
| Quota.FreePtblLedger | kern/vmm/MPTComm/MPTComm.c:70-81 | gives the table's page back to the account that paid, or changes no account |
| Quota.AllocMemQuotaLedger | kern/vmm/MPTNew/MPTNew.c:38-43 | guarded delegation keeps accounts balanced and within quota |
| Quota.FirstProcess | kern/vmm/MPTNew/MPTNew.c:38-43 | right after boot the root can delegate n pages to container 1, which may then consume them and map its first page |
| Budget.AllocPageIff | kern/vmm/MPTNew/MPTNew.c:16-33 | alloc_page succeeds if and only if its page, and the table it may need, are free, and takes exactly those; accounts play no part |
| Budget.TookSolvent | kern/pmm/MContainer/MContainer.c:80-90 | a container that may consume n pages and takes n leaves everybody within quota |
| KernelCode.ClearStep | kern/vmm/MPTComm/MPTComm.c:58-62 | each of the 1024 clearing steps, which goes through the entry just written, zeroes the next word of the frame |
| KernelCode.IdStep | kern/vmm/MPTOp/MPTOp.c:88-102 | filling one identity entry leaves those filled before |
| KernelCode.BootTables | kern/vmm/MPTKern/MPTKern.c:13-23 | the directories and tables so filled satisfy the invariant and map nothing for users |
| KernelCode.BootTranslates | kern/vmm/MPTKern/MPTKern.c:13-23 | after boot process 0 translates every address to itself, the others kernel addresses only |
| KernelCode.PageMap.GetPtblEntry | kern/vmm/MPTIntro/MPTIntro.c:90-104 | reads the entry through the directory, 0 without a table |
| KernelCode.PageMap.SetPdirEntry | kern/vmm/MPTIntro/MPTIntro.c:59-67 | writes the directory word with PTE_P, PTE_W and PTE_U |
| KernelCode.PageMap.SetPtblEntry | kern/vmm/MPTIntro/MPTIntro.c:108-122 | writes one entry of an existing table |
| KernelCode.PageMap.RmvPtblEntry | kern/vmm/MPTIntro/MPTIntro.c:134-147 | clears one entry of an existing table |
| KernelCode.PageMap.SetPtblEntryIdentity | kern/vmm/MPTIntro/MPTIntro.c:126-131 | writes one identity entry |
| KernelCode.PageMap.GetPtblEntryByVa | kern/vmm/MPTOp/MPTOp.c:17-30 | splits the address and reads a present entry, 0 otherwise |
| KernelCode.PageMap.SetPtblEntryByVa | kern/vmm/MPTOp/MPTOp.c:59-66 | splits the address and writes the entry |
| KernelCode.PageMap.ClearTable | kern/vmm/MPTComm/MPTComm.c:58-62 | the clearing loop zeroes the whole frame of the new table |
| KernelCode.PageMap.DoAllocPtbl | kern/vmm/MPTComm/MPTComm.c:45-65 | the code is the specified alloc_ptbl |
| KernelCode.PageMap.DoFreePtbl | kern/vmm/MPTComm/MPTComm.c:70-81 | the code is the specified free_ptbl |
| KernelCode.PageMap.DoMapPage | kern/vmm/MPTKern/MPTKern.c:33-50 | the code is the specified map_page |
| KernelCode.PageMap.DoUnmapPage | kern/vmm/MPTKern/MPTKern.c:60-77 | the code is the specified unmap_page |
| KernelCode.PageMap.DoAllocPage | kern/vmm/MPTNew/MPTNew.c:16-33 | the code is the specified alloc_page, roll-back included |
| KernelCode.PageMap.DoAllocMemQuota | kern/vmm/MPTNew/MPTNew.c:38-43 | the code is the specified split |
| KernelCode.PageMap.FillIdTables | kern/vmm/MPTOp/MPTOp.c:88-102 | the nested loops fill all 1024 x 1024 identity entries |
| KernelCode.PageMap.FillDirectories | kern/vmm/MPTComm/MPTComm.c:25-35 | the nested loops fill all 64 directories |
| KernelCode.PageMap.PdirInitKern | kern/vmm/MPTKern/MPTKern.c:13-23 | from any memory contents and any firmware map: balanced accounts, identity translation for process 0 and for kernel addresses, no user mapping |
| UserCopy.MappedFrame | kern/lib/pmap.c:64-74 | the physical address a copy uses lies in an allocated user frame outside all page tables |
| UserCopy.OneOwner | kern/lib/pmap.c:64-74 | a physical page is behind one virtual page of one process only |
| UserCopy.InPageConfined | kern/lib/pmap.c:72-78 | writing inside a mapped page changes no table entry and no other byte any process sees |
| UserCopy.WriteUserCorrect | kern/lib/pmap.c:53-112 | for any unaligned multi-page range, with allocation inside the loop, whatever the accounts: if its missing pages and tables are free, every byte arrives, missing pages are mapped present, writable and for the user, nothing else that was mapped changes, and exactly those pages are taken |
| UserCopy.KernelWrite | kern/lib/pmap.c:38-43 | a write to a kernel buffer changes no translation and no user byte |
| UserCopy.ReadUserCorrect | kern/lib/pmap.c:19-51 | the buffer receives what the process sees; missing pages are mapped present, writable and for the user; no user byte and no other kernel byte changes; exactly the missing pages and tables are taken |
| UserCopy.CopyRoundTrip | kern/lib/pmap.c:19-85 | pt_copyout then pt_copyin of a range returns the bytes and the full length, and the second call allocates nothing |
| UserCopy.RangeCheckIff | kern/lib/pmap.c:21-25 | the 32-bit range check accepts exactly the user ranges if and only if no sum it accepts wraps; one range it accepts wrongly |
| CopyFailure.WriteUserHarmless | kern/lib/pmap.c:60-112 | also when allocations fail inside the loop: invariant, accounts, mappings, other bytes of every process, and kernel memory outside page 0 are kept |
| CopyFailure.ReadUserHarmless | kern/lib/pmap.c:29-48 | the same for pt_copyin, whose buffer is the only kernel memory that changes |
| CopyFailure.WriteTranslations | kern/lib/pmap.c:66-69 | pt_copyout and pt_memset, however little memory there is: an address that translated does so as before, and one that did not is, if mapped now, writable, for the user and not global |
| CopyFailure.ReadTranslations | kern/lib/pmap.c:32-35 | the same for pt_copyin |
| CopyFailure.MissingMapped | kern/lib/pmap.c:94-97 | when the missing pages and tables are free, every address of the range that was not mapped translates afterwards, writable and for the user |
| CopyFailure.CopyoutDeliversIff | kern/lib/pmap.c:53-85 | the full length is reported in every case; the bytes arrive if and only if the missing pages and tables are not more than the free pages |
| CopyFailure.CopyinDeliversIff | kern/lib/pmap.c:19-51 | the same for pt_copyin |
| CopyFailure.MemsetDeliversIff | kern/lib/pmap.c:87-112 | the same for pt_memset |
| CopyFailure.LostCopies | kern/lib/pmap.c:64-82 | without a free page for an unmapped page: all three operate on physical page 0 and report success |
| Views.MapNewView | kern/vmm/MPTNew/MPTNew.c:16-33 | alloc_page, successful or not, changes no translation and no byte another process sees |
| Views.AllocPageHits | kern/vmm/MPTNew/MPTNew.c:16-33 | after a successful alloc_page the hardware translates every address of the page to a page that was free, with exactly the permissions asked for |
| Views.AllocPageElsewhere | kern/vmm/MPTNew/MPTNew.c:16-33 | and every other address of every process as before |
| Views.DropTableView | kern/vmm/MPTComm/MPTComm.c:70-81 | the same for free_ptbl |
| Loader.LoadPageCorrect | kern/lib/elf.c:66-79 | one page, in each of the three cases: file bytes up to zva, zeros above, requested permission |
| Loader.LoadPagesCorrect | kern/lib/elf.c:65-80 | the page loop over a whole segment, which takes a page for each page and the missing tables, no more |
| Loader.SegmentByteMeans | kern/lib/elf.c:57-63 | in terms of the program header: file byte p_offset + i for i below p_filesz, zero up to p_memsz |
| Loader.LoadSegmentsCorrect | kern/lib/elf.c:50-81 | all segments at once, when they share no page: each shows its bytes and permission, everything else is kept, and exactly a page for each page and the missing tables are taken |
| Loader.ElfLoadCorrect | kern/lib/elf.c:28-85 | the same for elf_load as the hardware sees it: writable exactly for writable segments, the linkage page on top, writable unless a segment decides otherwise, other processes and unrelated pages untouched, and exactly the pages and tables needed taken |
| Loader.ReadsBackIff | kern/lib/elf.c:83-84 | a byte of a segment reads back as the file has it if and only if the linkage page does not cover it or holds the same byte |
| Loader.LinkageWins | kern/lib/elf.c:83-84 | an image of one segment at the linkage page that does not read back |
| LoadFailure.ElfLoadContained | kern/lib/elf.c:50-84 | for every image whose pages are user pages, well formed or not, however little memory there is: invariant and accounts are kept, no other process sees a change, kernel memory outside page 0 stays |
| LoadFailure.ElfLoadsIff | kern/lib/elf.c:50-84 | every byte is loaded, into new pages throughout, if and only if pages and missing tables are not more than the free pages; into a fresh process every byte is loaded only then |
| Strays.AllocPageInvIff | kern/vmm/MPTNew/MPTNew.c:16-33 | for every 32-bit address: alloc_page keeps the page structures if and only if the address is a user address or no page is free |
| Strays.EveryoneLoses | kern/vmm/MPTIntro/MPTIntro.c:108-122 | after alloc_page for a kernel address with a free page no process translates that address to itself any more |
| Strays.StrayPage | kern/lib/elf.c:66-80 | loading one page of an image at a kernel address, with a free page, loses the invariant whatever the file holds |
| Strays.HighCopies | kern/lib/pmap.c:53-112 | a range that ends with the address space is accepted by pt_copyout, and any range at its top by pt_memset; the kernel memory there is overwritten and success reported |
| CopyCode.DoCopyout | kern/lib/pmap.c:53-85 | for every 32-bit user range: the loop is the specified pt_copyout, range checks, wrap-around and result included |
| CopyCode.DoCopyin | kern/lib/pmap.c:19-51 | for every 32-bit user range: the loop is the specified pt_copyin |
| CopyCode.DoMemset | kern/lib/pmap.c:87-112 | for every 32-bit range: the loop is the specified pt_memset |
| CopyCode.DoLoadPages | kern/lib/elf.c:65-80 | the page loop is the specified one |
| CopyCode.HeadersStay | kern/lib/elf.c:50-81 | loading a segment, also when memory runs out, leaves the program headers still to be read as they were |
| CopyCode.DoElfLoad | kern/lib/elf.c:28-85 | the header loop, which reads each header from memory while loading changes memory, loads what the table and count in the image name, whatever addresses they hold and however little memory there is; what that means for the bytes is ImageBytes.ElfBytes |
| CopyCode.ElfLoadIs | kern/lib/elf.c:47-84 | it loads the headers found at the start when their pages are user pages and the header table lies in kernel memory outside page 0 |
| ImageBytes.ElfBytes | kern/lib/elf.c:28-85 | for the image as it lies in memory, from the ELF header on: user byte p_va + i of every loadable segment is file byte p_offset + i below p_filesz and zero up to p_memsz, writable exactly when the write flag is set; linkage page, everything else and the exact price as before |
| ImageBytes.HeaderWords | kern/lib/elf.h:30-39 | which word of a program header is which field |
| ImageBytes.NeedsAre | kern/lib/elf.c:50-84 | the pages and tables an image takes, counted from its bytes: its pages, the linkage page unless it is there, the tables they lack |
| CopyCode.HandleFault | kern/lib/trap.c:38-56 | the handler does to the machine what Runs.FaultServed and Runs.FaultUnserved say |
| Runs.FaultServed | kern/lib/trap.c:49-55 | not-present fault, page and table to be had: the address translates, writable and for the user, to a page that was free; exactly the price is charged; no other translation and no mapped byte of anybody changes |
| Runs.FaultUnserved | kern/lib/trap.c:49-55 | a protection fault changes nothing; without the pages memory, marks and accounts stay as they are |
| Runs.StoreMeans | kern/vmm/MPTOp/MPTOp.c:59-66 | a store by a process arrives exactly on its pages whose entry, as set here, says writable and user |
| Runs.StepKeeps | kern/lib/trap.c:38-76 | every step, copies and loading that fail included, keeps the invariant of its level of care |
| Runs.RunFrames | kern/vmm/MPTNew/MPTNew.c:16-33 | after every run the frames of all live tables and mappings are pairwise distinct, normal, allocated to the process that uses them, and in the user range |
| Runs.RunFramesAreRam | kern/pmm/MATInit/MATInit.c:39-99 | after every run every byte of every live frame lies in a firmware entry of type RAM |
| Runs.RunAllocatesRam | kern/pmm/MATOp/MATOp.c:31-63 | after every run every byte of the page the allocator would hand out next lies in a firmware entry of type RAM |
| Runs.RunKernelIdentity | kern/vmm/MPTIntro/MPTIntro.c:108-147 | after every run the identity tables are unchanged, process 0 has the full identity and everybody the kernel half |
| Runs.RunLedger | kern/pmm/MContainer/MContainer.c:98-161 | after every run of started processes the tree stands, every usage is children's quotas plus own frames, and totals are conserved |
| Runs.RunPromise | kern/vmm/MPTNew/MPTNew.c:16-43 | in a run whose page-taking steps are guarded nobody is ever over quota, and after every step its purpose is there: the mapping with its permissions, the table, the child with its quota, the bytes of a store, copy or fill, the whole image |
| Runs.RunIsolation | kern/vmm/MPTIntro/MPTIntro.c:108-147 | a process that takes no step keeps every mapping, every absence of one and every byte, whatever the others do within the user range, copies and loads that run out of pages included |
| Runs.RunTranslations | kern/vmm/MPTIntro/MPTIntro.c:108-147 | the same for the hardware's translation of every address |
| ByteStrings.RepMovsForward | kern/lib/string.c:40-47 | bytewise or wordwise forward transfer delivers the old source bytes unless the destination starts inside the source |
| ByteStrings.RepMovsBackward | kern/lib/string.c:27-38 | the same backwards, for a destination above the source |
| ByteStrings.Memmove | kern/lib/string.c:21-52 | for every overlap, on all four paths, the destination receives the bytes the source held and nothing else changes |
| ByteStrings.ReplicatedStore | kern/lib/string.c:8-12 | storing the replicated word extends a byte fill by four bytes |
| ByteStrings.Memset | kern/lib/string.c:4-19 | word path and byte path fill alike |
| Printfmt.PadMoves | kern/lib/printfmt.c:23-33 | narrowing the field at each recursion pads in front of the most significant digit |
| Printfmt.NumberWidth | kern/lib/printfmt.c:20-34 | the output is as long as the larger of width and digit count |
| Printfmt.NumberMeans | kern/lib/printfmt.c:20-34 | as many pad characters as are missing, then the digits |
| Printfmt.DigitsLower | kern/lib/printfmt.c:33 | every printed digit is one of 0-9 and a-f, and the last stands for the remainder |
| Printfmt.Sink.Printnum | kern/lib/printfmt.c:20-34 | the recursion prints the padded digits in order |
| Printfmt.TextWidth | kern/lib/printfmt.c:148-159 | a string field is as long as the larger of width and the part the precision admits |
| Printfmt.TextMeans | kern/lib/printfmt.c:145-160 | %s: the part of the string the precision admits, character for character, behind pad characters or, left-justified, before spaces; with '#' exactly the characters outside ' '..'~' appear as '?'; a null pointer prints (null) |
| Printfmt.Sink.PrintText | kern/lib/printfmt.c:145-160 | the three loops print the string in its field |
| Printfmt.ConversionsMean | kern/lib/printfmt.c:139-198 | what %c, %d, %u, %o, %p and %x print, with 32-bit arguments or, with two length letters, 64-bit ones |
| Printfmt.Sink.ReadNumber | kern/lib/printfmt.c:99-114 | the digit loop reads a whole number and stops at the first other character |
| Printfmt.Sink.PutEscape | kern/lib/printfmt.c:79-211 | one escape is printed as specified and the cursor ends behind its opening %, also after walking back |
| Printfmt.Sink.Vprintfmt | kern/lib/printfmt.c:64-213 | terminates on every NUL-terminated format, reads nothing outside it, and prints what the specification says |
| Printfmt.FmtText | kern/lib/printfmt.c:73-77 | text without % is copied |
| Printfmt.FmtUnknown | kern/lib/printfmt.c:205-210 | an unrecognised escape, one cut off by the NUL included, is printed as it stands and formatting goes on behind it |
| Escapes.EscapeMeans | kern/lib/printfmt.c:79-198 | anywhere in a format: an escape with optional '-', '0', '#', width and precision as numbers or arguments, and length letters prints its argument as asked, behind the arguments its stars take, and formatting resumes behind it |
| Escapes.UnknownMeans | kern/lib/printfmt.c:205-210 | the same escape ending in any other character, the NUL included, is printed as it stands and formatting goes on at that character |
| Escapes.PercentMeans | kern/lib/printfmt.c:200-203 | %% prints one percent sign and takes no argument |
| Strtol.StrtolDigits | user/lib/string.c:116-132 | the digit loop consumes the longest run of digits of the base and accumulates it with 32-bit wrap-around |
| Strtol.Strtol | user/lib/string.c:93-137 | blanks, sign, base prefix and digits are parsed as specified |
| Strtol.DigitMeans | user/lib/string.c:120-127 | 0-9, a-z and A-Z stand for 0 to 35, and nothing else is a digit |
| Strtol.ReadsOctal | user/lib/string.c:111-112 | base 0, behind any blanks and sign: a 0 and octal digits are read in base 8, up to the first other character |
| Strtol.ReadsHex | user/lib/string.c:109-110 | bases 0 and 16: 0x and the digits behind it in base 16 |
| Strtol.ReadsDecimal | user/lib/string.c:113-114 | base 0: digits that do not begin with 0 in base 10 |
| Strtol.ReadsGiven | user/lib/string.c:93-137 | any other base: its own digits, with 32-bit wrap-around |
| Strtol.ReadsNothing | user/lib/string.c:93-137 | no digit behind blanks and sign: value 0, end at the missing digit |
| Strtol.DigitsValue | kern/lib/printfmt.c:20-34 | the printed digits are digits of the base, stand for the number, and have no leading zero |
| Strtol.AccumulateWraps | user/lib/string.c:130-131 | wrapping at every digit is wrapping once at the end |
| FormatParse.ParseNumber | user/lib/string.c:93-137 | strtol consumes all that printnum wrote, any width, spaces or zeros, and yields the number cut to 32 bits |
| FormatParse.RoundTrip | user/lib/string.c:93-137 | strtol inverts printnum if and only if the number is below 2^31 |
| FormatParse.SignedRoundTrip | kern/lib/printfmt.c:163-170 | exactly which %d fields strtol reads back |
| FormatParse.PointerRoundTrip | user/lib/string.c:108-114 | strtol reads back a %p field, prefix included, in base 16 or guessing the base, if and only if the value is below 2^31 and no padding but zeros stands behind the prefix |
| FormatParse.FmtField | kern/lib/printfmt.c:72-198 | text, an escape with optional zero flag and any width, and a rest: the escape prints its argument in that field and formatting resumes behind it |
| FormatParse.FormatThenParse | kern/lib/printfmt.c:172-198 | a 32-bit argument printed by %u, %o or %x in any such field is read back by strtol if and only if it is below 2^31 |
| FormatParse.SignedFormatThenParse | kern/lib/printfmt.c:163-170 | the same for a signed 32-bit argument and %d, with the exact condition on value, width and padding |

## Left out

- Boot sector, segment and TSS setup, trap entry and return, `set_cr3`, `enable_paging` and the TLB: translation is a function of the tables in memory.
- Serial, keyboard, video, console and monitor: the formatter's sink collects characters instead.
- `pmmap_sublist`, `max_usable_memory` and `mem_npages` in `mboot.c`: the allocator does not use them.
- Kernel panics and assertions (more than 128 entries, unknown memory types, the ELF magic and section checks, a protection fault): preconditions, or a step that changes nothing.
- `perm` of 4096 and more: the source ORs it unmasked into the frame number; user steps pass flags only.
- Runs.RunIsolation: of runs in which somebody loads an image page outside the user range, maps such an address, or copies over a range that wraps it says nothing, because there the source does not isolate (`Strays.EveryoneLoses`).
- Runs.RunTranslations: the same.
- LoadFailure.ElfLoadContained: asks that the image's pages are user pages, as above, and that the file pages the loader goes through are memory.
- CopyCode.DoElfLoad: asks that the file pages named by the headers it comes to do not wrap around the address space.
- Loader.ElfLoadCorrect: asks for an image and a linkage table in the kernel's own memory, and for segments in the user range that share no page, with `p_filesz <= p_memsz` and with offset and address equal modulo 4096, as the ELF specification requires; the loader checks none of it.
- Page frames lost by `unmap_page`, `free_ptbl`, by mapping over a mapping and by `alloc_ptbl` over an existing table: the invariants say "live implies allocated", not the converse.
- The page-size bit of directory entries: no code sets it and translation ignores it.
- Varargs: arguments are a stream of 64-bit values, each with the string found at that address; a mismatch between escape and argument type is not modelled.
- Overflow of the `int` that holds a width or precision: unbounded here.
- Signed overflow in `strtol`, which C leaves undefined: modelled as wrap-around.
- The user library's copy of the formatter and the remaining string helpers.
- The scheduling of processes and interleaving inside a system call: kernel steps are atomic.
