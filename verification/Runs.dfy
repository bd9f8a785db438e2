// The kernel as one state machine: user-level requests, page faults, kernel copies, program loading and
// plain user stores, and what holds after every run of them.
module Runs {
  import opened Words
  import FirmwareMap
  import opened PageAllocator
  import opened Containers
  import opened PageTables
  import opened PageMaps
  import opened Quota
  import opened Budget
  import opened UserCopy
  import opened CopyFailure
  import opened Views
  import opened Loader
  import opened LoadFailure

  datatype Step =
    | MapNew(p: int, va: u32, perm: int)                        // alloc_page
    | Unmap(p: int, va: u32)                                    // unmap_page
    | NewTable(p: int, va: u32)                                 // alloc_ptbl
    | DropTable(p: int, va: u32)                                // free_ptbl
    | Grant(id: int, quota: u32)                                // alloc_mem_quota
    | Fault(p: int, err: u32, va: u32)                          // page fault: trap, pgflt_handler
    | Store(p: int, va: u32, b: byte)                           // the process itself writes one byte
    | CopyOut(p: int, kva: u32, uva: u32, len: u32)             // pt_copyout
    | CopyIn(p: int, uva: u32, kva: u32, len: u32)              // pt_copyin
    | Fill(p: int, va: u32, c: int, len: u32)                   // pt_memset
    | Load(p: int, exe: int, phs: seq<Phdr>, dll: u32)          // elf_load

  // kern/lib/trap.c: a protection fault is refused, any other fault maps the page read-write.
  function PageFault(s: Machine, p: int, err: u32, va: u32): Machine
    requires Pid(p) && PmmOk(s.pool.pmm)
  {
    if err % 2 == 1 then s else AllocPage(s, p, RoundDown(va), USER_RW).0
  }

  lemma SameRounded(va: u32)
    requires UserVa(va)
    ensures UserVa(RoundDown(va)) && RoundDown(va) / 4096 == va / 4096
  {
    PageSplit(va / 4096, 0);
  }

  // A missing page that can be had: afterwards the faulting address translates, writable and for the user, to
  // a page that was free, and nothing else looks different to anybody.
  lemma FaultServed(s: Machine, p: int, err: u32, va: u32) returns (f: int)
    requires Inv(s) && UserPid(p) && UserVa(va) && err % 2 == 0 && PmmOk(s.pool.pmm)
    requires Cost(s, p, va) <= |FreePages(s.pool.pmm)|
    ensures UserPage(f) && Free(s.pool.pmm, f) && Inv(PageFault(s, p, err, va))
    ensures Mmu(PageFault(s, p, err, va).mem, p, va) == Hit(4096 * f + va % 4096, true, true, false)
    ensures Took(s.pool, PageFault(s, p, err, va).pool, p, Cost(s, p, va))
    ensures forall q, vb: u32 :: Pid(q) && !(q == p && vb / 4096 == va / 4096) ==>
      Mmu(PageFault(s, p, err, va).mem, q, vb) == Mmu(s.mem, q, vb)
    ensures forall q, vb: u32 ::
      UserPid(q) && UserVa(vb) && !(q == p && vb / 4096 == va / 4096) && Mapped(s.mem, q, vb) ==>
      UserByte(PageFault(s, p, err, va).mem, q, vb) == UserByte(s.mem, q, vb)
  {
    hide Inv, PmmOk, AllocPage, FreePages, Cost, Mmu, Mapped, UserByte, RoundDown, Took;
    var v := RoundDown(va);
    SameRounded(va);
    SameCost(s, p, v, va);
    AllocPageIff(s, p, v, 7);
    AllocPageInv(s, p, v, 7);
    f := AllocPageHits(s, p, v, 7, va);
    forall q, vb: u32 | Pid(q) && !(q == p && vb / 4096 == va / 4096)
      ensures Mmu(PageFault(s, p, err, va).mem, q, vb) == Mmu(s.mem, q, vb)
      ensures UserPid(q) && UserVa(vb) && Mapped(s.mem, q, vb) ==>
        UserByte(PageFault(s, p, err, va).mem, q, vb) == UserByte(s.mem, q, vb)
    {
      AllocPageElsewhere(s, p, v, 7, q, vb);
    }
  }

  lemma SameCost(s: Machine, p: int, va: u32, vb: u32)
    requires Pid(p) && va / 4096 == vb / 4096
    ensures Cost(s, p, va) == Cost(s, p, vb)
  {
    SamePage(va, vb);
    hide Pde, PdeIdx, PteIdx;
  }

  // Too few pages: memory and the table of pages stay as they are. A protection fault: everything does.
  lemma FaultUnserved(s: Machine, p: int, err: u32, va: u32)
    requires Inv(s) && UserPid(p) && UserVa(va) && PmmOk(s.pool.pmm)
    ensures err % 2 == 1 ==> PageFault(s, p, err, va) == s
    ensures err % 2 == 0 && Cost(s, p, va) > |FreePages(s.pool.pmm)| ==>
      var s' := PageFault(s, p, err, va);
      && Inv(s') && s'.mem == s.mem && s'.pool.pmm == s.pool.pmm.(cursor := 0x4_0000)
      && (IsInt(s.pool.cs[p].usage) ==> s'.pool.cs == s.pool.cs)
  {
    hide Inv, PmmOk, AllocPage, FreePages, Cost, RoundDown, Took;
    if err % 2 == 0 {
      SameRounded(va);
      SameCost(s, p, RoundDown(va), va);
      AllocPageIff(s, p, RoundDown(va), 7);
      AllocPageInv(s, p, RoundDown(va), 7);
      if Cost(s, p, va) > |FreePages(s.pool.pmm)| {
        AllocPageFails(s, p, RoundDown(va), 7);
      }
    }
  }

  // A store by process p: the hardware translates, and refuses unless the page is user writable.
  function UserStore(s: Machine, p: int, va: u32, b: byte): Machine
    requires Pid(p)
  {
    match Mmu(s.mem, p, va)
    case Miss => s
    case Hit(pa, writable, user, _) => if writable && user && 0 <= pa < MEM_SIZE then s.(mem := s.mem[pa := b]) else s
  }

  // A store to a page mapped writable for the user arrives, and any other store goes nowhere.
  lemma StoreMeans(s: Machine, p: int, va: u32, b: byte)
    requires Inv(s) && UserPid(p)
    ensures var e := Lookup(s.mem, p, va);
      UserVa(va) && Mapped(s.mem, p, va) && e / 2 % 2 == 1 && e / 4 % 2 == 1 ==>
      var s' := UserStore(s, p, va, b); Mapped(s'.mem, p, va) && UserByte(s'.mem, p, va) == b
    ensures var e := Lookup(s.mem, p, va);
      !(UserVa(va) && Mapped(s.mem, p, va) && e / 2 % 2 == 1 && e / 4 % 2 == 1) ==>
      UserStore(s, p, va, b) == s
  {
    DirectoriesOk(s);
    if UserVa(va) {
      UserTranslation(s.mem, p, va);
      hide Inv, Lookup, Mmu, KernelHalf, UserDirs;
      if UserStore(s, p, va, b) != s {
        StoreArrives(s, p, va, b);
      }
    } else {
      KernelIdentity(s.mem, p, va);
      hide Inv, Lookup, Mmu, KernelHalf, UserDirs;
    }
  }

  lemma StoreArrives(s: Machine, p: int, va: u32, b: byte)
    requires Inv(s) && UserPid(p) && UserVa(va) && Mapped(s.mem, p, va)
    ensures var m' := s.mem[Phys(s.mem, p, va) := b]; Mapped(m', p, va) && UserByte(m', p, va) == b
  {
    hide Inv, Lookup, KernelByte;
    var m' := s.mem[Phys(s.mem, p, va) := b];
    InPageConfined(s, m', p, va, 1);
    assert Lookup(m', p, va) == Lookup(s.mem, p, va);
    hide Confined, SameEntries;
  }

  function Apply(s: Machine, step: Step): Machine
    requires PmmOk(s.pool.pmm) && Args(step)
  {
    match step
    case MapNew(p, va, perm) => AllocPage(s, p, va, perm).0
    case Unmap(p, va) => UnmapPage(s, p, va).0
    case NewTable(p, va) => AllocPtbl(s, p, va).0
    case DropTable(p, va) => FreePtbl(s, p, va)
    case Grant(id, quota) => AllocMemQuota(s, id, quota).0
    case Fault(p, err, va) => PageFault(s, p, err, va)
    case Store(p, va, b) => UserStore(s, p, va, b)
    case CopyOut(p, kva, uva, len) => PtCopyout(s, kva, p, uva, len).0
    case CopyIn(p, uva, kva, len) => PtCopyin(s, p, uva, kva, len).0
    case Fill(p, va, c, len) => PtMemset(s, p, va, c, len).0
    case Load(p, exe, phs, dll) => ElfLoad(s, p, exe, phs, dll)
  }

  // User steps: processes 1..63, user addresses, ranges that do not wrap, images whose pages are user pages.
  // Strays shows what is lost otherwise. Ranges that pt_copyout and pt_copyin refuse are steps too.
  predicate Args(step: Step) {
    match step
    case MapNew(p, va, perm) => UserPid(p) && UserVa(va) && 0 <= perm < 4096
    case Unmap(p, va) => UserPid(p) && UserVa(va)
    case NewTable(p, va) => UserPid(p) && UserVa(va)
    case DropTable(p, va) => UserPid(p) && UserVa(va)
    case Grant(id, quota) => Id(id)
    case Fault(p, err, va) => UserPid(p) && UserVa(va)
    case Store(p, va, b) => UserPid(p)
    case CopyOut(p, kva, uva, len) => UserPid(p) && kva + len <= MEM_SIZE && WrapFree(uva, kva, len)
    case CopyIn(p, uva, kva, len) => UserPid(p) && kva + len <= MEM_SIZE && WrapFree(uva, kva, len)
    case Fill(p, va, c, len) => UserPid(p) && UserRange(va, len)
    case Load(p, exe, phs, dll) => UserPid(p) && AllPlaced(phs, exe) && dll + DLL_SIZE <= MEM_SIZE
  }

  // How careful the callers are. Any: pt_copyin is given a buffer in the kernel's own memory, no more.
  // Started: processes are started by a guarded split before they take pages. Paying: moreover whatever
  // takes pages is preceded by can_consume, and copies and images come from the kernel's own memory.
  datatype Level = Any | Started | Paying

  // The container may take n pages.
  predicate MayTake(s: Machine, p: int, n: int)
    requires Id(p)
  { 0 <= n < 0x1_0000_0000 && CanConsume(s.pool.cs[p], n) }

  ghost predicate BufferGiven(s: Machine, step: Step) {
    match step
    case CopyIn(p, uva, kva, len) => RangesOk(uva, kva, len) ==> KernelBuffer(s, kva, len)
    case _ => true
  }

  ghost predicate Begun(s: Machine, step: Step) {
    match step
    case Unmap(_, _) => true
    case Store(_, _, _) => true
    case Grant(id, quota) => SplitGuard(s.pool, id, quota)
    case _ => InUse(s, step.p)
  }

  ghost predicate Paid(s: Machine, step: Step)
    requires Args(step)
  {
    match step
    case MapNew(p, _, _) => MayTake(s, p, 2)
    case NewTable(p, _) => MayTake(s, p, 1)
    case Fault(p, _, _) => MayTake(s, p, 2)
    case CopyOut(p, kva, uva, len) =>
      RangesOk(uva, kva, len) ==> KernelBuffer(s, kva, len) && MayTake(s, p, Needs(s.mem, p, uva, len))
    case CopyIn(p, uva, kva, len) => RangesOk(uva, kva, len) ==> MayTake(s, p, Needs(s.mem, p, uva, len))
    case Fill(p, va, _, len) => MayTake(s, p, Needs(s.mem, p, va, len))
    case Load(p, exe, phs, dll) => ImageOk(s, p, exe, phs, dll) && MayTake(s, p, ElfNeeds(s.mem, p, phs))
    case _ => true
  }

  ghost predicate Ok(level: Level, s: Machine, step: Step) {
    && Args(step) && BufferGiven(s, step)
    && (level != Any ==> Begun(s, step))
    && (level == Paying ==> Paid(s, step))
  }

  /* ----- what each level of care keeps ----- */

  ghost predicate Keeps(level: Level, s: Machine) {
    match level
    case Any => Inv(s)
    case Started => Accounted(s)
    case Paying => Solvent(s)
  }

  lemma KeepsInv(level: Level, s: Machine)
    requires Keeps(level, s)
    ensures Inv(s) && PmmOk(s.pool.pmm)
  {
  }

  lemma MapNewKeeps(level: Level, s: Machine, p: int, va: u32, perm: int)
    requires Keeps(level, s) && UserPid(p) && UserVa(va) && 0 <= perm < 4096 && PmmOk(s.pool.pmm)
    requires level != Any ==> InUse(s, p)
    requires level == Paying ==> CanConsume(s.pool.cs[p], 2)
    ensures Keeps(level, AllocPage(s, p, va, perm).0)
  {
    hide PmmOk, TablesOk, Ledger, AllocPage, CanConsume, Backed, WithinQuota;
    match level
    case Any => AllocPageInv(s, p, va, perm);
    case Started => AllocPageLedger(s, p, va, perm);
    case Paying => TwoPagesSuffice(s, p, va, perm);
  }

  lemma NewTableKeeps(level: Level, s: Machine, p: int, va: u32)
    requires Ok(level, s, NewTable(p, va)) && Keeps(level, s) && PmmOk(s.pool.pmm)
    ensures Keeps(level, AllocPtbl(s, p, va).0)
  {
    hide PmmOk, TablesOk, Ledger, AllocPtbl, CanConsume, Backed, WithinQuota, NewTableEntry;
    match level
    case Any => AllocPtblInv(s, p, va);
    case Started => AllocPtblLedger(s, p, va);
    case Paying => AllocPtblPromise(s, p, va);
  }

  lemma DropTableKeeps(level: Level, s: Machine, p: int, va: u32)
    requires Ok(level, s, DropTable(p, va)) && Keeps(level, s)
    ensures Keeps(level, FreePtbl(s, p, va))
  {
    hide PmmOk, TablesOk, Ledger, FreePtbl, Backed, WithinQuota;
    if level == Any {
      FreePtblInv(s, p, va);
    } else {
      FreePtblLedger(s, p, va);
    }
  }

  lemma UnmapKeeps(level: Level, s: Machine, p: int, va: u32)
    requires UserPid(p) && UserVa(va) && Keeps(level, s)
    ensures Keeps(level, UnmapPage(s, p, va).0)
  {
    hide PmmOk, TablesOk, Ledger, UnmapPage, Backed, WithinQuota, Maps;
    UnmapPageInv(s, p, va);
  }

  lemma GrantKeeps(level: Level, s: Machine, id: int, quota: u32)
    requires Ok(level, s, Grant(id, quota)) && Keeps(level, s)
    ensures Keeps(level, AllocMemQuota(s, id, quota).0)
  {
    hide PmmOk, TablesOk, Ledger, WithinQuota, SplitGuard, Split;
    if level != Any {
      AllocMemQuotaLedger(s, id, quota);
    }
  }

  // A user store goes nowhere, or into the frame of one of the process's own mappings.
  lemma StoreShape(s: Machine, p: int, va: u32, b: byte)
    requires Inv(s) && UserPid(p)
    ensures UserStore(s, p, va, b) == s
      || (UserVa(va) && Mapped(s.mem, p, va) && UserStore(s, p, va, b) == s.(mem := s.mem[Phys(s.mem, p, va) := b]))
  {
    hide Lookup, Separated, InUserFrames, PmmOk, Backed, Pde, IdPte;
    if UserVa(va) {
      UserTranslation(s.mem, p, va);
    } else {
      KernelIdentity(s.mem, p, va);
    }
  }

  lemma StoreConfined(s: Machine, p: int, va: u32, b: byte)
    requires Inv(s) && UserPid(p) && va + 1 < MEM_SIZE
    ensures var s' := UserStore(s, p, va, b); Inv(s') && s'.pool == s.pool && Confined(s, s', p, va, va + 1)
  {
    StoreShape(s, p, va, b);
    hide Inv, Lookup, Phys, UserStore, KernelByte;
    if UserStore(s, p, va, b) == s {
      ConfinedRefl(s, p, va, va + 1);
    } else {
      hide Confined;
      InPageConfined(s, s.mem[Phys(s.mem, p, va) := b], p, va, 1);
    }
  }

  lemma StoreKeeps(level: Level, s: Machine, p: int, va: u32, b: byte)
    requires UserPid(p) && Keeps(level, s)
    ensures Keeps(level, UserStore(s, p, va, b))
  {
    KeepsInv(level, s);
    StoreShape(s, p, va, b);
    hide Inv, Ledger, UserStore, WithinQuota, Phys, Lookup, PmmOk;
    if UserStore(s, p, va, b) != s {
      StoreConfined(s, p, va, b);
    }
  }

  // What an operation must show: its accounts at level Started, its exact price at level Paying.
  lemma Settled(level: Level, s: Machine, s': Machine, p: int, n: int)
    requires Keeps(level, s) && Inv(s') && UserPid(p) && KeepsAccounts(s.pool, s'.pool, p)
    requires level != Any ==> InUse(s, p)
    requires level == Paying ==> MayTake(s, p, n) && Took(s.pool, s'.pool, p, n)
    ensures Keeps(level, s')
  {
    hide Inv, Ledger, FreePages, CanConsume, WithinQuota, Took;
    if level == Paying {
      TookSolvent(s, s', p, n);
    }
  }

  lemma Affordable(s: Machine, p: int, n: int)
    requires Solvent(s) && Id(p) && MayTake(s, p, n)
    ensures n <= |FreePages(s.pool.pmm)|
  {
    hide Inv, Ledger, FreePages, CanConsume, WithinQuota;
    QuotaIsPromise(s.pool, p, n);
  }

  lemma SolventInv(s: Machine)
    requires Solvent(s)
    ensures Inv(s) && PmmOk(s.pool.pmm)
  {
  }

  // A copy that may take its price delivers, and takes exactly that.
  lemma {:induction false} PaidWrite(s: Machine, p: int, uva: u32, len: u32, src: Source)
    requires Solvent(s) && UserPid(p) && UserRange(uva, len) && SourceInRange(src, len) && SourceSafe(s, src, len)
    requires MayTake(s, p, Needs(s.mem, p, uva, len)) && PmmOk(s.pool.pmm)
    ensures Written(s, WriteUser(s, p, uva, len, src), p, uva, len, src, Needs(s.mem, p, uva, len))
  {
    hide Solvent, Inv, PmmOk, MayTake, WriteUser, Written, Needs, FreePages, SourceSafe;
    SolventInv(s);
    Affordable(s, p, Needs(s.mem, p, uva, len));
    WriteUserCorrect(s, p, uva, len, src);
  }

  lemma {:induction false} PaidRead(s: Machine, p: int, uva: u32, kva: u32, len: u32)
    requires Solvent(s) && UserPid(p) && UserRange(uva, len) && KernelBuffer(s, kva, len)
    requires MayTake(s, p, Needs(s.mem, p, uva, len)) && PmmOk(s.pool.pmm)
    ensures ReadDone(s, ReadUser(s, p, uva, kva, len), p, uva, len, kva, Needs(s.mem, p, uva, len))
  {
    hide Solvent, Inv, PmmOk, MayTake, ReadUser, ReadDone, Needs, FreePages, KernelBuffer;
    SolventInv(s);
    Affordable(s, p, Needs(s.mem, p, uva, len));
    ReadUserCorrect(s, p, uva, kva, len);
  }

  lemma {:induction false} WriteKeeps(level: Level, s: Machine, p: int, uva: u32, len: u32, src: Source)
    requires Keeps(level, s) && UserPid(p) && UserRange(uva, len) && SourceInRange(src, len) && PmmOk(s.pool.pmm)
    requires level != Any ==> InUse(s, p)
    requires level == Paying ==> SourceSafe(s, src, len) && MayTake(s, p, Needs(s.mem, p, uva, len))
    ensures Keeps(level, WriteUser(s, p, uva, len, src))
  {
    hide Solvent, Inv, PmmOk, MayTake, WriteUser, Took, Opened, Confined, Holds, Needs, Ledger, SourceSafe;
    KeepsInv(level, s);
    WriteUserHarmless(s, p, uva, len, src);
    hide Scarce, KeepsLookups, KeepsBytes, MapsOnly, KeepsKernelBut;
    if level == Paying {
      PaidWrite(s, p, uva, len, src);
    }
    Settled(level, s, WriteUser(s, p, uva, len, src), p, Needs(s.mem, p, uva, len));
  }

  lemma {:induction false} ReadKeeps(level: Level, s: Machine, p: int, uva: u32, kva: u32, len: u32)
    requires Keeps(level, s) && UserPid(p) && UserRange(uva, len) && KernelBuffer(s, kva, len) && PmmOk(s.pool.pmm)
    requires level != Any ==> InUse(s, p)
    requires level == Paying ==> MayTake(s, p, Needs(s.mem, p, uva, len))
    ensures Keeps(level, ReadUser(s, p, uva, kva, len))
  {
    hide Solvent, Inv, PmmOk, MayTake, ReadUser, Took, Quiet, Delivered, Needs, Ledger, KernelByte;
    KeepsInv(level, s);
    ReadUserHarmless(s, p, uva, kva, len);
    if level == Paying {
      PaidRead(s, p, uva, kva, len);
    }
    Settled(level, s, ReadUser(s, p, uva, kva, len), p, Needs(s.mem, p, uva, len));
  }

  lemma LoadKeeps(level: Level, s: Machine, p: int, exe: int, phs: seq<Phdr>, dll: u32)
    requires Ok(level, s, Load(p, exe, phs, dll)) && Keeps(level, s) && PmmOk(s.pool.pmm)
    ensures Keeps(level, ElfLoad(s, p, exe, phs, dll))
  {
    hide Solvent, Inv, PmmOk, MayTake, ElfLoad, Took, ElfNeeds, Ledger, ImageOk, SegmentOk, Placed, InMemory, FreePages;
    hide LinkPage, Untouched, ImageLoaded;
    KeepsInv(level, s);
    ElfLoadContained(s, p, exe, phs, dll);
    hide Scarce, KeepsKernelBut, SameView;
    if level == Paying {
      Affordable(s, p, ElfNeeds(s.mem, p, phs));
      ElfLoadCorrect(s, p, exe, phs, dll);
    }
    Settled(level, s, ElfLoad(s, p, exe, phs, dll), p, ElfNeeds(s.mem, p, phs));
  }

  lemma CopyKeeps(level: Level, s: Machine, step: Step)
    requires Ok(level, s, step) && Keeps(level, s) && (step.CopyOut? || step.CopyIn? || step.Fill?) && PmmOk(s.pool.pmm)
    ensures Keeps(level, Apply(s, step))
  {
    hide Keeps, PmmOk, WriteUser, ReadUser, MayTake, Needs, KernelByte;
    match step {
      case CopyOut(p, kva, uva, len) =>
        if RangesOk(uva, kva, len) {
          WriteKeeps(level, s, p, uva, len, Kernel(kva));
        }
      case CopyIn(p, uva, kva, len) =>
        if RangesOk(uva, kva, len) {
          ReadKeeps(level, s, p, uva, kva, len);
        }
      case Fill(p, va, c, len) =>
        WriteKeeps(level, s, p, va, len, Constant(c % 0x100));
    }
  }

  lemma StepKeeps(level: Level, s: Machine, step: Step)
    requires Ok(level, s, step) && Keeps(level, s) && PmmOk(s.pool.pmm)
    ensures Keeps(level, Apply(s, step))
  {
    hide PmmOk, Keeps, BufferGiven, SplitGuard, CanConsume, Needs, ImageOk, ElfNeeds;
    hide AllocPage, UnmapPage, FreePtbl, AllocPtbl, AllocMemQuota, UserStore, ElfLoad, PtCopyout, PtCopyin, PtMemset;
    match step
    case MapNew(p, va, perm) => MapNewKeeps(level, s, p, va, perm);
    case Unmap(p, va) => UnmapKeeps(level, s, p, va);
    case NewTable(p, va) => NewTableKeeps(level, s, p, va);
    case DropTable(p, va) => DropTableKeeps(level, s, p, va);
    case Grant(id, quota) => GrantKeeps(level, s, id, quota);
    case Fault(p, err, va) => SameRounded(va); MapNewKeeps(level, s, p, RoundDown(va), USER_RW);
    case Store(p, va, b) => StoreKeeps(level, s, p, va, b);
    case CopyOut(_, _, _, _) => CopyKeeps(level, s, step);
    case CopyIn(_, _, _, _) => CopyKeeps(level, s, step);
    case Fill(_, _, _, _) => CopyKeeps(level, s, step);
    case Load(p, exe, phs, dll) => LoadKeeps(level, s, p, exe, phs, dll);
  }

  /* ----- runs ----- */

  // A run whose every step is taken with the given care.
  ghost predicate Admissible(level: Level, s: Machine, steps: seq<Step>)
    requires Keeps(level, s)
    decreases |steps|
  {
    KeepsInv(level, s);
    || steps == []
    || (&& Ok(level, s, steps[0])
        && (StepKeeps(level, s, steps[0]); Admissible(level, Apply(s, steps[0]), steps[1..])))
  }

  ghost function Run(level: Level, s: Machine, steps: seq<Step>): Machine
    requires Keeps(level, s) && Admissible(level, s, steps)
    decreases |steps|
  {
    KeepsInv(level, s);
    if steps == [] then s else StepKeeps(level, s, steps[0]); Run(level, Apply(s, steps[0]), steps[1..])
  }

  lemma {:induction false} RunKeeps(level: Level, s: Machine, steps: seq<Step>)
    requires Keeps(level, s) && Admissible(level, s, steps)
    ensures Keeps(level, Run(level, s, steps)) && Inv(Run(level, s, steps))
    decreases |steps|
  {
    KeepsInv(level, s);
    hide Inv, Ok, Apply, Keeps;
    if steps != [] {
      StepKeeps(level, s, steps[0]);
      RunKeeps(level, Apply(s, steps[0]), steps[1..]);
    } else {
      KeepsInv(level, s);
    }
  }

  // After every run: the frames of all live tables and mappings, over all processes, are pairwise
  // distinct, normal, allocated to the process that uses them, and inside the user range.
  lemma {:induction false} RunFrames(level: Level, s: Machine, steps: seq<Step>)
    requires Keeps(level, s) && Admissible(level, s, steps)
    ensures var s' := Run(level, s, steps);
      forall x :: Live(s'.mem, x) ==>
        && UserPage(FrameOf(s'.mem, x)) && Normal(s'.pool.pmm, FrameOf(s'.mem, x))
        && Allocated(s'.pool.pmm, FrameOf(s'.mem, x)) && s'.pool.owner[FrameOf(s'.mem, x)] == x.p
        && forall y :: Live(s'.mem, y) && FrameOf(s'.mem, y) == FrameOf(s'.mem, x) ==> y == x
  {
    RunKeeps(level, s, steps);
    hide Run, Keeps, Admissible, KernelHalf, UserDirs, EntryOf;
  }

  /* perms never change, so the frames stay firmware RAM */

  lemma FreePtblPerms(s: Machine, p: int, va: u32)
    requires Pid(p)
    ensures SamePerms(s, FreePtbl(s, p, va))
  {
    hide Release, Pde;
    ReleaseKeepsPerms(s.pool, p, Pde(s.mem, p, PdeIdx(va)) / 4096);
  }

  lemma PoolKept(s: Machine, p: int, va: u32, b: byte)
    requires Pid(p)
    ensures UnmapPage(s, p, va).0.pool == s.pool && UserStore(s, p, va, b).pool == s.pool
  {
    hide Mmu, Lookup, SetPte;
  }

  lemma SplitPerms(s: Machine, id: int, quota: u32)
    requires Id(id)
    ensures SamePerms(s, AllocMemQuota(s, id, quota).0)
  {
  }

  lemma {:induction false} WritePerms(s: Machine, p: int, uva: u32, len: u32, src: Source)
    requires Inv(s) && UserPid(p) && UserRange(uva, len) && SourceInRange(src, len) && PmmOk(s.pool.pmm)
    ensures SamePerms(s, WriteUser(s, p, uva, len, src))
  {
    hide Inv, PmmOk, WriteUser, KeepsAccounts, Scarce, KeepsLookups, KeepsBytes, MapsOnly, KernelByte;
    WriteUserHarmless(s, p, uva, len, src);
  }

  lemma {:induction false} ReadPerms(s: Machine, p: int, uva: u32, kva: u32, len: u32)
    requires Inv(s) && UserPid(p) && UserRange(uva, len) && KernelBuffer(s, kva, len) && PmmOk(s.pool.pmm)
    ensures SamePerms(s, ReadUser(s, p, uva, kva, len))
  {
    hide Inv, PmmOk, ReadUser, KeepsAccounts, KeepsLookups, KeepsBytes, MapsOnly, KernelByte;
    ReadUserHarmless(s, p, uva, kva, len);
  }

  lemma LoadPerms(s: Machine, p: int, exe: int, phs: seq<Phdr>, dll: u32)
    requires Inv(s) && UserPid(p) && AllPlaced(phs, exe) && dll + DLL_SIZE <= MEM_SIZE && PmmOk(s.pool.pmm)
    ensures SamePerms(s, ElfLoad(s, p, exe, phs, dll))
  {
    hide Inv, PmmOk, ElfLoad, KeepsAccounts, Scarce, SameView, KernelByte, SegmentOk, Placed, InMemory;
    ElfLoadContained(s, p, exe, phs, dll);
  }

  lemma CopyPerms(level: Level, s: Machine, step: Step)
    requires Ok(level, s, step) && Inv(s) && (step.CopyOut? || step.CopyIn? || step.Fill?) && PmmOk(s.pool.pmm)
    ensures SamePerms(s, Apply(s, step))
  {
    hide Inv, PmmOk, WriteUser, ReadUser, Begun, Paid, KernelBuffer, SamePerms;
    SamePermsRefl(s);
    match step {
      case CopyOut(p, kva, uva, len) =>
        if RangesOk(uva, kva, len) {
          WritePerms(s, p, uva, len, Kernel(kva));
        }
      case CopyIn(p, uva, kva, len) =>
        if RangesOk(uva, kva, len) {
          ReadPerms(s, p, uva, kva, len);
        }
      case Fill(p, va, c, len) =>
        WritePerms(s, p, va, len, Constant(c % 0x100));
    }
  }

  lemma SamePermsRefl(s: Machine)
    ensures SamePerms(s, s)
  {
  }

  lemma StepPerms(level: Level, s: Machine, step: Step)
    requires Ok(level, s, step) && Keeps(level, s) && PmmOk(s.pool.pmm)
    ensures SamePerms(s, Apply(s, step))
  {
    hide Inv, PmmOk, Keeps, BufferGiven, Begun, Paid, RoundDown, SamePerms;
    hide AllocPage, UnmapPage, FreePtbl, AllocPtbl, AllocMemQuota, UserStore, ElfLoad, PtCopyout, PtCopyin, PtMemset;
    KeepsInv(level, s);
    SamePermsRefl(s);
    match step
    case MapNew(p, va, perm) => AllocPagePerms(s, p, va, perm);
    case Unmap(p, va) => PoolKept(s, p, va, 0); PoolPerms(s, UnmapPage(s, p, va).0);
    case NewTable(p, va) => AllocPtblPerms(s, p, va);
    case DropTable(p, va) => FreePtblPerms(s, p, va);
    case Grant(id, quota) => SplitPerms(s, id, quota);
    case Fault(p, err, va) => AllocPagePerms(s, p, RoundDown(va), USER_RW);
    case Store(p, va, b) => PoolKept(s, p, va, b); PoolPerms(s, UserStore(s, p, va, b));
    case CopyOut(_, _, _, _) => CopyPerms(level, s, step);
    case CopyIn(_, _, _, _) => CopyPerms(level, s, step);
    case Fill(_, _, _, _) => CopyPerms(level, s, step);
    case Load(p, exe, phs, dll) => LoadPerms(s, p, exe, phs, dll);
  }

  lemma PoolPerms(s: Machine, s': Machine)
    requires s'.pool == s.pool
    ensures SamePerms(s, s')
  {
  }

  lemma {:induction false} RunPerms(level: Level, s: Machine, steps: seq<Step>)
    requires Keeps(level, s) && Admissible(level, s, steps)
    ensures SamePerms(s, Run(level, s, steps))
    decreases |steps|
  {
    if steps == [] {
      hide Keeps;
    } else {
      RunHead(level, s, steps);
      hide Ok, Apply, Keeps, PmmOk, Admissible, Run;
      StepPerms(level, s, steps[0]);
      RunPerms(level, Apply(s, steps[0]), steps[1..]);
    }
  }

  // From the firmware map to a running system: whatever happened since boot, every byte of every page
  // table and of every page a process maps lies in a firmware entry of type RAM.
  lemma {:induction false} RunFramesAreRam(level: Level, s: Machine, es: seq<FirmwareMap.MmapEntry>,
      steps: seq<Step>, x: Slot, a: int)
    requires Keeps(level, s) && Admissible(level, s, steps) && Initialised(s.pool.pmm, FirmwareMap.Rows(es))
    requires var m := Run(level, s, steps).mem; Live(m, x) && 4096 * FrameOf(m, x) <= a < 4096 * FrameOf(m, x) + 4096
    ensures FirmwareMap.InFirmware(es, FirmwareMap.MEM_RAM, a)
  {
    hide Keeps, Admissible, Run, Initialised, FirmwareMap.Rows, FirmwareMap.InFirmware, FrameOf;
    RunFrames(level, s, steps);
    RunPerms(level, s, steps);
    NormalPagesAreRam(s.pool.pmm, es, FrameOf(Run(level, s, steps).mem, x), a);
  }

  // Whatever page the allocator hands out after any run since boot, every byte of it lies in a firmware
  // entry of type RAM.
  lemma {:induction false} RunAllocatesRam(level: Level, s: Machine, es: seq<FirmwareMap.MmapEntry>, steps: seq<Step>,
      id: int, a: int)
    requires Keeps(level, s) && Admissible(level, s, steps) && Initialised(s.pool.pmm, FirmwareMap.Rows(es)) && Id(id)
    ensures UserPage(Run(level, s, steps).pool.pmm.cursor)
    ensures var f := Alloc(Run(level, s, steps).pool, id).1;
      f != 0 && 4096 * f <= a < 4096 * f + 4096 ==> FirmwareMap.InFirmware(es, FirmwareMap.MEM_RAM, a)
  {
    hide Keeps, Admissible, Run, Initialised, FirmwareMap.Rows, FirmwareMap.InFirmware, Palloc;
    RunKeeps(level, s, steps);
    RunPerms(level, s, steps);
    var s' := Run(level, s, steps);
    KeepsInv(level, s');
    PallocFirstFit(s'.pool.pmm);
    var f := Alloc(s'.pool, id).1;
    if f != 0 && 4096 * f <= a < 4096 * f + 4096 {
      NormalPagesAreRam(s.pool.pmm, es, f, a);
    }
  }

  // After every run the static identity tables are as initialised, process 0 keeps the full identity
  // translation, and every process keeps the kernel half of it.
  lemma {:induction false} RunKernelIdentity(level: Level, s: Machine, steps: seq<Step>, p: int, va: u32)
    requires Keeps(level, s) && Admissible(level, s, steps) && Pid(p) && (p == 0 || !UserVa(va))
    ensures Mmu(Run(level, s, steps).mem, p, va) == Hit(va, true, false, !UserVa(va))
    ensures forall d, t :: Idx(d) && Idx(t) ==> IdPte(Run(level, s, steps).mem, d, t) == IdEntry(d, t)
  {
    RunKeeps(level, s, steps);
    hide Run, Keeps, Admissible, Mmu, Pde, IdPte, Separated, InUserFrames, Backed;
    KernelIdentity(Run(level, s, steps).mem, p, va);
  }

  // Accounts balance after every run in which processes are started before they allocate.
  lemma {:induction false} RunLedger(s: Machine, steps: seq<Step>, c: int)
    requires Accounted(s) && Admissible(Started, s, steps) && Id(c)
    ensures var pool := Run(Started, s, steps).pool;
      && Tree(pool.cs) && pool.cs[c].usage == ChildSum(pool.cs, c) + |Owned(pool, c)|
      && SumUsage(pool.cs, |pool.cs|) - (SumQuota(pool.cs, |pool.cs|) - pool.cs[0].quota) == |AllocatedPages(pool.pmm)|
  {
    RunKeeps(Started, s, steps);
    hide Run, Admissible, Tree, ChildSum, Owned, PmmOk, Funded, OwnersInUse, TablesOk, SumUsage, SumQuota;
    Conservation(Run(Started, s, steps).pool);
  }

  // A run is its first step and the run of the rest.
  lemma {:induction false} RunHead(level: Level, s: Machine, steps: seq<Step>)
    requires Keeps(level, s) && Admissible(level, s, steps) && steps != []
    ensures PmmOk(s.pool.pmm) && Args(steps[0]) && Ok(level, s, steps[0])
    ensures Keeps(level, Apply(s, steps[0])) && Admissible(level, Apply(s, steps[0]), steps[1..])
    ensures Run(level, s, steps) == Run(level, Apply(s, steps[0]), steps[1..])
  {
    KeepsInv(level, s);
    hide Ok, Apply, Keeps, PmmOk;
    StepKeeps(level, s, steps[0]);
    OkArgs(level, s, steps[0]);
  }

  lemma OkArgs(level: Level, s: Machine, step: Step)
    requires Ok(level, s, step)
    ensures Args(step)
  {
  }

  lemma {:induction false} RunCons(level: Level, s: Machine, steps: seq<Step>)
    requires Keeps(level, s) && steps != [] && PmmOk(s.pool.pmm) && Ok(level, s, steps[0])
    requires Keeps(level, Apply(s, steps[0])) && Admissible(level, Apply(s, steps[0]), steps[1..])
    ensures Admissible(level, s, steps) && Run(level, s, steps) == Run(level, Apply(s, steps[0]), steps[1..])
  {
    hide Ok, Apply, Keeps, PmmOk;
  }

  lemma {:induction false} RunNothing(level: Level, s: Machine)
    requires Keeps(level, s)
    ensures Admissible(level, s, []) && Run(level, s, []) == s
  {
    hide Keeps;
  }

  lemma {:induction false} RunPrefix(level: Level, s: Machine, steps: seq<Step>, k: nat)
    requires Keeps(level, s) && Admissible(level, s, steps) && k < |steps|
    ensures Admissible(level, s, steps[..k])
    ensures Keeps(level, Run(level, s, steps[..k])) && Ok(level, Run(level, s, steps[..k]), steps[k])
    decreases k
  {
    hide Ok, Apply, Keeps, PmmOk, Admissible, Run;
    RunHead(level, s, steps);
    if k == 0 {
      assert steps[..0] == [];
      RunNothing(level, s);
    } else {
      RunPrefix(level, Apply(s, steps[0]), steps[1..], k - 1);
      assert steps[..k][1..] == steps[1..][..k-1];
      RunCons(level, s, steps[..k]);
    }
  }

  // What a step is for, in terms of the state s' after it.
  ghost predicate Served(s: Machine, s': Machine, step: Step)
    requires Args(step)
  {
    match step
    case MapNew(p, va, perm) =>
      var found := Mmu(s'.mem, p, va);
      perm % 2 == 1 ==> found.Hit? && found.writable == (perm / 2 % 2 == 1) && found.user == (perm / 4 % 2 == 1)
    case Unmap(p, va) => !Mapped(s'.mem, p, va)
    case NewTable(p, va) => Live(s'.mem, TableOf(p, va))
    case DropTable(p, va) => !Live(s'.mem, TableOf(p, va))
    case Grant(id, quota) =>
      var child := 3 * id + 1 + s.pool.cs[id].nchildren;
      if 0 <= child < 64 then s'.pool.cs[child] == Container(quota, 0, id, 0, 1) else s' == s
    case Fault(p, err, va) =>
      var found := Mmu(s'.mem, p, va);
      if err % 2 == 0 then found.Hit? && found.writable && found.user else s' == s
    case Store(p, va, b) =>
      var found := Mmu(s.mem, p, va);
      if found.Hit? && found.writable && found.user then UserByte(s'.mem, p, va) == b else s' == s
    case CopyOut(p, kva, uva, len) =>
      if RangesOk(uva, kva, len) then Holds(s'.mem, p, uva, len, s.mem, Kernel(kva)) else s' == s
    case CopyIn(p, uva, kva, len) => if RangesOk(uva, kva, len) then Delivered(s'.mem, p, uva, len, kva) else s' == s
    case Fill(p, va, c, len) => Holds(s'.mem, p, va, len, s.mem, Constant(c % 0x100))
    case Load(p, exe, phs, dll) =>
      SegmentsOk(phs, exe) && dll + DLL_SIZE <= VM_USERLO && Complete(s.mem, s'.mem, p, exe, phs, dll)
  }

  // In a run where whatever takes pages is preceded by can_consume, no container is ever over quota and every
  // step does what it is for: no allocation fails, every copy arrives and every image is loaded.
  lemma {:induction false} RunPromise(s: Machine, steps: seq<Step>, k: nat)
    requires Solvent(s) && Admissible(Paying, s, steps) && k < |steps|
    ensures Admissible(Paying, s, steps[..k])
    ensures var s1 := Run(Paying, s, steps[..k]);
      && WithinQuota(s1.pool) && PmmOk(s1.pool.pmm) && Args(steps[k])
      && Served(s1, Apply(s1, steps[k]), steps[k])
  {
    RunPrefix(Paying, s, steps, k);
    var s1 := Run(Paying, s, steps[..k]);
    KeepsInv(Paying, s1);
    hide Run, Admissible, Ok, Served, Inv, Ledger, PmmOk, WithinQuota, Apply;
    OkArgs(Paying, s1, steps[k]);
    StepServed(s1, steps[k]);
  }

  lemma {:induction false} PaidLoad(s: Machine, p: int, exe: int, phs: seq<Phdr>, dll: u32)
    requires Solvent(s) && ImageOk(s, p, exe, phs, dll) && MayTake(s, p, ElfNeeds(s.mem, p, phs)) && PmmOk(s.pool.pmm)
    ensures SegmentsOk(phs, exe) && dll + DLL_SIZE <= VM_USERLO
    ensures Complete(s.mem, ElfLoad(s, p, exe, phs, dll).mem, p, exe, phs, dll)
  {
    hide Solvent, Inv, PmmOk, MayTake, ElfLoad, ElfNeeds, FreePages, FilesSafe, PageDisjoint, KernelBuffer, SegmentOk;
    hide Complete, AllRenewed;
    Affordable(s, p, ElfNeeds(s.mem, p, phs));
    LoadsAll(s, p, exe, phs, dll);
  }

  lemma PaidFault(s: Machine, p: int, err: u32, va: u32)
    requires Solvent(s) && UserPid(p) && UserVa(va) && MayTake(s, p, 2) && err % 2 == 0 && PmmOk(s.pool.pmm)
    ensures var found := Mmu(PageFault(s, p, err, va).mem, p, va); found.Hit? && found.writable && found.user
  {
    hide Inv, Ledger, PmmOk, MayTake, PageFault, FreePages, WithinQuota, Mmu, UserByte, Took, Mapped;
    Affordable(s, p, 2);
    var f := FaultServed(s, p, err, va);
  }

  lemma PaidMap(s: Machine, p: int, va: u32, perm: int)
    requires Ok(Paying, s, MapNew(p, va, perm)) && Solvent(s) && PmmOk(s.pool.pmm)
    ensures var found := Mmu(AllocPage(s, p, va, perm).0.mem, p, va);
      perm % 2 == 1 ==> found.Hit? && found.writable == (perm / 2 % 2 == 1) && found.user == (perm / 4 % 2 == 1)
  {
    hide AllocPage, Inv, Ledger, PmmOk, WithinQuota, CanConsume, Mmu;
    TwoPagesSuffice(s, p, va, perm);
    if perm % 2 == 1 {
      var f := AllocPageHits(s, p, va, perm, va);
    }
  }

  lemma Removed(s: Machine, p: int, va: u32)
    requires Inv(s) && UserPid(p) && UserVa(va)
    ensures !Mapped(UnmapPage(s, p, va).0.mem, p, va)
  {
    hide Inv, UnmapPage, Pte;
    UserSlots(p, va);
    UnmapPageInv(s, p, va);
    assert OneMapping(s.mem, UnmapPage(s, p, va).0.mem, p, va, 0, SlotOf(p, va)) || UnmapPage(s, p, va).0 == s;
  }

  lemma Dropped(s: Machine, p: int, va: u32)
    requires Inv(s) && UserPid(p) && UserVa(va)
    ensures !Live(FreePtbl(s, p, va).mem, TableOf(p, va))
  {
    hide Inv, FreePtbl;
    UserSlots(p, va);
    FreePtblInv(s, p, va);
  }

  lemma Endowed(s: Machine, id: int, quota: u32)
    requires Solvent(s) && SplitGuard(s.pool, id, quota)
    ensures var child := 3 * id + 1 + s.pool.cs[id].nchildren; var s' := AllocMemQuota(s, id, quota).0;
      if 0 <= child < 64 then s'.pool.cs[child] == Container(quota, 0, id, 0, 1) else s' == s
  {
    GuardMeans(s.pool, id, quota);
    SplitShape(s.pool.cs, id, quota);
    NoWrap(quota);
    hide Inv, PmmOk, Split, CanConsume, ToI32, ToU32;
  }

  lemma Stored(s: Machine, p: int, va: u32, b: byte)
    requires Inv(s) && UserPid(p)
    ensures var found := Mmu(s.mem, p, va);
      if found.Hit? && found.writable && found.user then UserByte(UserStore(s, p, va, b).mem, p, va) == b
      else UserStore(s, p, va, b) == s
  {
    hide Inv, Lookup, UserByte, Phys, KernelHalf, UserDirs;
    StoreMeans(s, p, va, b);
    DirectoriesOk(s);
    if UserVa(va) {
      UserTranslation(s.mem, p, va);
    } else {
      KernelIdentity(s.mem, p, va);
    }
    hide Mmu, UserStore;
  }

  lemma CopyServed(s: Machine, step: Step)
    requires Solvent(s) && PmmOk(s.pool.pmm) && Ok(Paying, s, step) && (step.CopyOut? || step.CopyIn? || step.Fill?)
    ensures Served(s, Apply(s, step), step)
  {
    hide Solvent, CanConsume, PmmOk, WriteUser, ReadUser, Needs, Holds, Delivered, Took, Opened, Confined, Quiet;
    hide KernelByte, Begun;
    match step {
      case CopyOut(p, kva, uva, len) =>
        if RangesOk(uva, kva, len) {
          PaidWrite(s, p, uva, len, Kernel(kva));
        }
      case CopyIn(p, uva, kva, len) =>
        if RangesOk(uva, kva, len) {
          PaidRead(s, p, uva, kva, len);
        }
      case Fill(p, va, c, len) => PaidWrite(s, p, va, len, Constant(c % 0x100));
    }
  }

  lemma StepServed(s: Machine, step: Step)
    requires Solvent(s) && PmmOk(s.pool.pmm) && Ok(Paying, s, step)
    ensures Served(s, Apply(s, step), step)
  {
    hide AllocPage, AllocPtbl, UnmapPage, FreePtbl, AllocMemQuota, UserStore, PtCopyout, PtCopyin, PtMemset, ElfLoad;
    hide CanConsume, SplitGuard, Inv, Ledger, PmmOk, WithinQuota, Needs, ElfNeeds, Mmu, Live, Mapped, UserByte, Holds;
    hide Delivered, ImageOk, Complete, SegmentOk, Placed, InMemory, KernelByte;
    match step {
      case MapNew(p, va, perm) => PaidMap(s, p, va, perm);
      case Unmap(p, va) => Removed(s, p, va);
      case NewTable(p, va) =>
        AllocPtblPromise(s, p, va);
        AllocPtblInv(s, p, va);
      case DropTable(p, va) => Dropped(s, p, va);
      case Grant(id, quota) => Endowed(s, id, quota);
      case Fault(p, err, va) =>
        if err % 2 == 0 {
          PaidFault(s, p, err, va);
        }
      case Store(p, va, b) => Stored(s, p, va, b);
      case CopyOut(_, _, _, _) => CopyServed(s, step);
      case CopyIn(_, _, _, _) => CopyServed(s, step);
      case Fill(_, _, _, _) => CopyServed(s, step);
      case Load(p, exe, phs, dll) => PaidLoad(s, p, exe, phs, dll);
    }
  }

  /* ----- isolation ----- */

  function Actor(step: Step): int {
    if step.Grant? then 0 else step.p
  }

  lemma StoreView(s: Machine, p: int, va: u32, b: byte, q: int)
    requires Inv(s) && UserPid(p) && UserPid(q) && q != p
    ensures SameView(s.mem, UserStore(s, p, va, b).mem, q)
  {
    StoreShape(s, p, va, b);
    hide Inv, Lookup, Phys, UserStore, Confined;
    if UserStore(s, p, va, b) != s {
      StoreConfined(s, p, va, b);
      ConfinedView(s, UserStore(s, p, va, b), p, va, va + 1, q);
    }
  }

  lemma CopyView(level: Level, s: Machine, step: Step, q: int)
    requires Ok(level, s, step) && Inv(s) && (step.CopyOut? || step.CopyIn? || step.Fill?) && PmmOk(s.pool.pmm)
    requires UserPid(q) && q != Actor(step)
    ensures SameView(s.mem, Apply(s, step).mem, q)
  {
    hide Inv, PmmOk, WriteUser, ReadUser, Begun, Paid, KernelBuffer, SameView;
    SameViewRefl(s.mem, q);
    match step {
      case CopyOut(p, kva, uva, len) =>
        if RangesOk(uva, kva, len) {
          WriteView(s, p, uva, len, Kernel(kva), q);
        }
      case CopyIn(p, uva, kva, len) =>
        if RangesOk(uva, kva, len) {
          ReadView(s, p, uva, kva, len, q);
        }
      case Fill(p, va, c, len) =>
        WriteView(s, p, va, len, Constant(c % 0x100), q);
    }
  }

  lemma {:induction false} WriteView(s: Machine, p: int, uva: u32, len: u32, src: Source, q: int)
    requires Inv(s) && UserPid(p) && UserRange(uva, len) && SourceInRange(src, len) && PmmOk(s.pool.pmm)
    requires UserPid(q) && q != p
    ensures SameView(s.mem, WriteUser(s, p, uva, len, src).mem, q)
  {
    hide Inv, PmmOk, WriteUser, Harmless, SameView;
    WriteUserHarmless(s, p, uva, len, src);
    HarmlessView(s, WriteUser(s, p, uva, len, src), p, uva, uva + len, q);
  }

  lemma {:induction false} ReadView(s: Machine, p: int, uva: u32, kva: u32, len: u32, q: int)
    requires Inv(s) && UserPid(p) && UserRange(uva, len) && KernelBuffer(s, kva, len) && PmmOk(s.pool.pmm)
    requires UserPid(q) && q != p
    ensures SameView(s.mem, ReadUser(s, p, uva, kva, len).mem, q)
  {
    hide Inv, PmmOk, ReadUser, KeepsAccounts, Quiet, KernelByte, SameView;
    ReadUserHarmless(s, p, uva, kva, len);
    QuietView(s, ReadUser(s, p, uva, kva, len), p, uva, len, kva, q);
  }

  lemma LoadView(s: Machine, p: int, exe: int, phs: seq<Phdr>, dll: u32, q: int)
    requires Inv(s) && UserPid(p) && AllPlaced(phs, exe) && dll + DLL_SIZE <= MEM_SIZE && PmmOk(s.pool.pmm)
    requires UserPid(q) && q != p
    ensures SameView(s.mem, ElfLoad(s, p, exe, phs, dll).mem, q)
  {
    hide Inv, PmmOk, ElfLoad, KeepsAccounts, Scarce, SameView, KeepsKernelBut, SegmentOk, Placed, InMemory;
    ElfLoadContained(s, p, exe, phs, dll);
  }

  // One step of process p changes nothing that another process can see.
  lemma StepView(level: Level, s: Machine, step: Step, q: int)
    requires Ok(level, s, step) && Keeps(level, s) && PmmOk(s.pool.pmm) && UserPid(q) && q != Actor(step)
    ensures SameView(s.mem, Apply(s, step).mem, q)
  {
    hide Inv, PmmOk, Keeps, BufferGiven, Begun, Paid, RoundDown, SameView;
    hide AllocPage, UnmapPage, FreePtbl, AllocPtbl, UserStore, ElfLoad, PtCopyout, PtCopyin, PtMemset;
    KeepsInv(level, s);
    SameViewRefl(s.mem, q);
    match step
    case MapNew(p, va, perm) => MapNewView(s, p, va, perm, q);
    case Unmap(p, va) => UnmapView(s, p, va, q);
    case NewTable(p, va) => AddTableView(s, p, va, q);
    case DropTable(p, va) => DropTableView(s, p, va, q);
    case Grant(id, quota) =>
    case Fault(p, err, va) => SameRounded(va); MapNewView(s, p, RoundDown(va), USER_RW, q);
    case Store(p, va, b) => StoreView(s, p, va, b, q);
    case CopyOut(_, _, _, _) => CopyView(level, s, step, q);
    case CopyIn(_, _, _, _) => CopyView(level, s, step, q);
    case Fill(_, _, _, _) => CopyView(level, s, step, q);
    case Load(p, exe, phs, dll) => LoadView(s, p, exe, phs, dll, q);
  }

  // Isolation over whole runs: a process that takes no step of its own keeps every translation of a user
  // address, present or absent, and every byte behind them, whatever the others do.
  lemma {:induction false} RunIsolation(level: Level, s: Machine, steps: seq<Step>, q: int)
    requires Keeps(level, s) && Admissible(level, s, steps) && UserPid(q)
    requires forall i :: 0 <= i < |steps| ==> Actor(steps[i]) != q
    ensures SameView(s.mem, Run(level, s, steps).mem, q)
    decreases |steps|
  {
    if steps == [] {
      hide Keeps;
      SameViewRefl(s.mem, q);
    } else {
      RunHead(level, s, steps);
      hide Ok, Apply, Keeps, PmmOk, Admissible, Run, SameView;
      var s1 := Apply(s, steps[0]);
      StepView(level, s, steps[0], q);
      RunIsolation(level, s1, steps[1..], q);
      SameViewTrans(s.mem, s1.mem, Run(level, s1, steps[1..]).mem, q);
    }
  }

  // The same for what the hardware finds at any address, user or kernel.
  lemma {:induction false} RunTranslations(level: Level, s: Machine, steps: seq<Step>, q: int, va: u32)
    requires Keeps(level, s) && Admissible(level, s, steps) && UserPid(q)
    requires forall i :: 0 <= i < |steps| ==> Actor(steps[i]) != q
    ensures Mmu(Run(level, s, steps).mem, q, va) == Mmu(s.mem, q, va)
  {
    hide Run, Keeps, Admissible, Mmu, Lookup, Separated, InUserFrames, Backed, Pde, IdPte, PmmOk;
    KeepsInv(level, s);
    RunKeeps(level, s, steps);
    RunIsolation(level, s, steps, q);
    if UserVa(va) {
      UserTranslation(s.mem, q, va);
      UserTranslation(Run(level, s, steps).mem, q, va);
    } else {
      KernelIdentity(s.mem, q, va);
      KernelIdentity(Run(level, s, steps).mem, q, va);
    }
  }
}
