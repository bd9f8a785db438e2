// kern/vmm as imperative code over the one physical memory: the entry primitives of MPTIntro, the
// by-address wrappers of MPTOp, and the operations and initialisers of MPTComm, MPTKern and MPTNew.
module KernelCode {
  import opened Words
  import opened FirmwareMap
  import opened PageAllocator
  import opened Containers
  import opened PageTables
  import opened PageMaps
  import opened Quota

  /* ----- steps of the clearing and initialising loops, on memory values ----- */

  lemma DirectoryAbove(m: Mem, p: int, d: int, f: int, k: int)
    requires Pid(p) && Idx(d) && UserPage(f) && 0 <= k <= 4096
    ensures Pde(FillBytes(m, 4096 * f, 0, k), p, d) == Pde(m, p, d)
  {
    FillBytesEffect(m, 4096 * f, 0, k);
    hide FillBytes, Word;
    WordKept(m, FillBytes(m, 4096 * f, 0, k), PdeAddr(p, d));
  }

  // Clearing slot t of the new table extends the zeroed prefix of its frame by one word.
  lemma ClearStep(m: Mem, p: int, d: int, f: int, t: int)
    requires Pid(p) && Idx(d) && UserPage(f) && Idx(t) && Pde(m, p, d) == Entry(f, 7)
    ensures SetPte(FillBytes(m, 4096 * f, 0, 4 * t), p, d, t, 0) == FillBytes(m, 4096 * f, 0, 4 * (t + 1))
  {
    DirectoryAbove(m, p, d, f, 4 * t);
    EntryParts(f, 7);
    FillBytesEffect(m, 4096 * f, 0, 4 * t);
    FillBytesEffect(m, 4096 * f, 0, 4 * (t + 1));
    hide FillBytes, Word, Pde, Entry;
    var m1 := FillBytes(m, 4096 * f, 0, 4 * t);
    assert PutWord(m1, 4096 * f + 4 * t, 0) == FillBytes(m, 4096 * f, 0, 4 * (t + 1));
  }

  /* ----- initialisation, entry by entry ----- */

  // The identity tables are filled up to slot t of table d, in row-major order.
  ghost predicate IdFilled(m: Mem, d: int, t: int) {
    forall c, k :: Idx(c) && Idx(k) && (c < d || (c == d && k < t)) ==> IdPte(m, c, k) == IdEntry(c, k)
  }

  lemma IdStep(m: Mem, d: int, t: int)
    requires Idx(d) && Idx(t) && IdFilled(m, d, t)
    ensures IdFilled(PutWord(m, IdAddr(d, t), IdEntry(d, t)), d, t + 1)
  {
    var m' := PutWord(m, IdAddr(d, t), IdEntry(d, t));
    PutWordEffect(m, IdAddr(d, t), IdEntry(d, t));
    hide PutWord, Word, IdEntry, IdAddr;
    forall c, k | Idx(c) && Idx(k) && (c < d || (c == d && k < t + 1))
      ensures IdPte(m', c, k) == IdEntry(c, k)
    {
      IdApart(d, t, c, k);
      assert (c, k) != (d, t) ==> IdPte(m, c, k) == IdEntry(c, k);
    }
  }

  lemma IdApart(d: int, t: int, c: int, k: int)
    requires Idx(d) && Idx(t) && Idx(c) && Idx(k)
    ensures 0 <= IdAddr(c, k) <= 0xFFFF_FFFC
    ensures (c, k) != (d, t) ==> IdAddr(c, k) + 4 <= IdAddr(d, t) || IdAddr(d, t) + 4 <= IdAddr(c, k)
  {
  }

  // What pdir_init writes into directory slot d of process p.
  function BootPde(p: int, d: int): u32
    requires Pid(p) && Idx(d)
  { if UserPde(d) then 0 else LAYOUT.idp + 4096 * d + 7 }

  ghost predicate DirFilled(m: Mem, p: int, d: int) {
    forall q, c :: Pid(q) && Idx(c) && (q < p || (q == p && c < d)) ==> Pde(m, q, c) == BootPde(q, c)
  }

  lemma DirStep(m: Mem, p: int, d: int)
    requires Pid(p) && Idx(d) && DirFilled(m, p, d) && IdFilled(m, 1024, 0)
    ensures DirFilled(SetPde(m, p, d, BootPde(p, d)), p, d + 1) && IdFilled(SetPde(m, p, d, BootPde(p, d)), 1024, 0)
  {
    PdeWrite(m, p, d, BootPde(p, d));
    hide SetPde, Pde, IdPte, BootPde, IdEntry;
  }

  // pdir_init_kern has rewritten process 0's directory up to slot d.
  ghost predicate KernFilled(m: Mem, d: int) {
    && (forall c :: Idx(c) && c < d ==> Pde(m, 0, c) == LAYOUT.idp + 4096 * c + 7)
    && (forall q, c :: UserPid(q) && Idx(c) ==> Pde(m, q, c) == BootPde(q, c))
  }

  lemma KernStep(m: Mem, d: int)
    requires Idx(d) && KernFilled(m, d) && IdFilled(m, 1024, 0)
    ensures KernFilled(SetPde(m, 0, d, LAYOUT.idp + 4096 * d + 7), d + 1)
    ensures IdFilled(SetPde(m, 0, d, LAYOUT.idp + 4096 * d + 7), 1024, 0)
  {
    PdeWrite(m, 0, d, LAYOUT.idp + 4096 * d + 7);
    hide SetPde, Pde, IdPte, BootPde, IdEntry;
  }

  // The memory pdir_init_kern leaves satisfies the page-structure invariant and maps nothing for users.
  lemma BootTables(m: Mem)
    requires KernFilled(m, 1024) && IdFilled(m, 1024, 0)
    ensures TablesOk(m) && (forall x :: !Live(m, x)) && Flat(m) == map[]
  {
    hide Word;
    forall x | UserSlot(x)
      ensures !Live(m, x)
    {
      assert Pde(m, x.p, x.d) == BootPde(x.p, x.d);
    }
    BootFlat(m);
  }

  lemma BootFlat(m: Mem)
    requires forall x :: !Live(m, x)
    ensures Flat(m) == map[]
  {
    forall k | k in UserKeys()
      ensures At(m, k) == 0
    {
      UserSlots(k.0, k.1 * 4096);
      assert !Live(m, SlotOf(k.0, k.1 * 4096));
      hide Pde, Pte, PdeIdx, PteIdx;
    }
    assert forall k :: k !in Flat(m) by { hide At; }
  }

  // How addresses are translated when initialisation is over: process 0 has the whole identity, the others
  // its kernel half, and no user address is mapped; PTE_G marks exactly the kernel range.
  function BootTranslation(p: int, va: u32): Translation
    requires Pid(p)
  { if p == 0 || !UserVa(va) then Hit(va, true, false, !UserVa(va)) else Miss }

  lemma BootTranslates(m: Mem, p: int, va: u32)
    requires TablesOk(m) && (forall x :: !Live(m, x)) && Pid(p)
    ensures Mmu(m, p, va) == BootTranslation(p, va)
  {
    hide Mmu, Pde, Pte, PdeIdx, PteIdx, IdPte, InUserFrames, Separated;
    if p == 0 || !UserVa(va) {
      KernelIdentity(m, p, va);
    } else {
      UserSlots(p, va);
      assert !Live(m, SlotOf(p, va));
      UserTranslation(m, p, va);
    }
  }

  class PageMap {
    const pool: ContainerPool
    const mem: array<byte>

    ghost function Repr(): set<object> { {this, mem} + pool.Repr() }

    ghost predicate Valid()
      reads this, pool, pool.table, pool.table.at, pool.container
    { pool.Valid() && mem.Length == MEM_SIZE && mem !in pool.Repr() && this !in pool.Repr() }

    ghost function View(): Machine
      requires Valid()
      reads this, mem, pool, pool.table, pool.table.at, pool.container
    { Machine(pool.View(), mem[..]) }

    // Zeroed kernel data; the rest of memory holds anything.
    constructor (image: array<byte>)
      requires image.Length == MEM_SIZE
      ensures Valid() && mem == image && fresh(pool.Repr()) && pool.Zeroed()
    {
      pool := new ContainerPool();
      mem := image;
    }

    /* ----- MPTIntro ----- */

    method GetPdirEntry(p: int, d: int) returns (e: u32)
      requires Valid() && Pid(p) && Idx(d)
      ensures e == Pde(mem[..], p, d)
    { e := LoadWord(mem, PdeAddr(p, d)); }

    method SetPdirEntry(p: int, d: int, page: int)
      requires Valid() && Pid(p) && Idx(d)
      modifies mem
      ensures mem[..] == SetPde(old(mem[..]), p, d, Entry(page, 7))
    { StoreWord(mem, PdeAddr(p, d), Entry(page, PTE_P + PTE_W + PTE_U)); }

    method SetPdirEntryIdentity(p: int, d: int)
      requires Valid() && Pid(p) && Idx(d)
      modifies mem
      ensures mem[..] == SetPde(old(mem[..]), p, d, LAYOUT.idp + 4096 * d + 7)
    { StoreWord(mem, PdeAddr(p, d), LAYOUT.idp + 4096 * d + (PTE_P + PTE_W + PTE_U)); }

    method RmvPdirEntry(p: int, d: int)
      requires Valid() && Pid(p) && Idx(d)
      modifies mem
      ensures mem[..] == SetPde(old(mem[..]), p, d, 0)
    { StoreWord(mem, PdeAddr(p, d), 0); }

    method GetPtblEntry(p: int, d: int, t: int) returns (e: u32)
      requires Valid() && Pid(p) && Idx(d) && Idx(t)
      ensures e == Pte(mem[..], p, d, t)
    {
      var pde := GetPdirEntry(p, d);
      if pde % 2 == 1 {
        e := LoadWord(mem, RemovePerms(pde) + 4 * t);
      } else {
        e := 0;
      }
    }

    // ((entry >> 12) << 12)
    static function RemovePerms(entry: u32): u32 { 4096 * (entry / 4096) }

    method SetPtblEntry(p: int, d: int, t: int, page: int, perm: int)
      requires Valid() && Pid(p) && Idx(d) && Idx(t) && 0 <= perm < 4096
      modifies mem
      ensures mem[..] == SetPte(old(mem[..]), p, d, t, Entry(page, perm))
    {
      var pde := GetPdirEntry(p, d);
      if pde % 2 == 1 {
        StoreWord(mem, RemovePerms(pde) + 4 * t, Entry(page, perm));
      }
    }

    method RmvPtblEntry(p: int, d: int, t: int)
      requires Valid() && Pid(p) && Idx(d) && Idx(t)
      modifies mem
      ensures mem[..] == SetPte(old(mem[..]), p, d, t, 0)
    {
      var pde := GetPdirEntry(p, d);
      if pde % 2 == 1 {
        StoreWord(mem, RemovePerms(pde) + 4 * t, 0);
      }
    }

    method SetPtblEntryIdentity(d: int, t: int, perm: int)
      requires Valid() && Idx(d) && Idx(t) && 0 <= perm < 4096
      modifies mem
      ensures mem[..] == PutWord(old(mem[..]), IdAddr(d, t), d * 0x40_0000 + t * 4096 + perm)
    { StoreWord(mem, IdAddr(d, t), d * 0x40_0000 + t * 4096 + perm); }

    /* ----- MPTOp ----- */

    method GetPtblEntryByVa(p: int, va: u32) returns (e: u32)
      requires Valid() && Pid(p)
      ensures e == Lookup(mem[..], p, va)
    {
      AddressParts(va);
      var entry := GetPtblEntry(p, va / 0x40_0000, va / 4096 % 1024);
      e := if entry % 2 == 1 then entry else 0;
    }

    method GetPdirEntryByVa(p: int, va: u32) returns (e: u32)
      requires Valid() && Pid(p)
      ensures e == Pde(mem[..], p, PdeIdx(va))
    {
      AddressParts(va);
      e := GetPdirEntry(p, va / 0x40_0000);
    }

    method SetPtblEntryByVa(p: int, va: u32, page: int, perm: int)
      requires Valid() && Pid(p) && 0 <= perm < 4096
      modifies mem
      ensures mem[..] == SetPteByVa(old(mem[..]), p, va, Entry(page, perm))
    {
      AddressParts(va);
      SetPtblEntry(p, va / 0x40_0000, va / 4096 % 1024, page, perm);
    }

    method RmvPtblEntryByVa(p: int, va: u32)
      requires Valid() && Pid(p)
      modifies mem
      ensures mem[..] == SetPteByVa(old(mem[..]), p, va, 0)
    {
      AddressParts(va);
      RmvPtblEntry(p, va / 0x40_0000, va / 4096 % 1024);
    }

    /* ----- MPTComm ----- */

    // The 1024 clearing steps go through the directory entry just written.
    method ClearTable(p: int, d: int, ghost f: int)
      requires Valid() && Pid(p) && Idx(d) && UserPage(f) && Pde(mem[..], p, d) == Entry(f, 7)
      modifies mem
      ensures mem[..] == FillBytes(old(mem[..]), 4096 * f, 0, 4096)
    {
      ghost var m0: Mem := mem[..];
      assert FillBytes(m0, 4096 * f, 0, 0) == m0;
      var t := 0;
      hide Pde, Entry, FillBytes, SetPte;
      while t < 1024
        invariant 0 <= t <= 1024 && mem[..] == FillBytes(m0, 4096 * f, 0, 4 * t)
      {
        ClearStep(m0, p, d, f, t);
        RmvPtblEntry(p, d, t);
        t := t + 1;
      }
    }

    method DoAllocPtbl(p: int, va: u32) returns (page: int)
      requires Valid() && Pid(p) && PmmOk(View().pool.pmm)
      modifies Repr()
      ensures Valid() && (View(), page) == AllocPtbl(old(View()), p, va)
    {
      page := pool.ContainerAlloc(p);
      if page == 0 {
        return 0;
      }
      AddressParts(va);
      ghost var m0: Mem := mem[..];
      SetPdirEntry(p, va / 0x40_0000, page);
      PdeWrite(m0, p, PdeIdx(va), Entry(page, 7));
      hide Pde, Entry, FillBytes, SetPde, PmmOk;
      ClearTable(p, va / 0x40_0000, page);
    }

    method DoFreePtbl(p: int, va: u32)
      requires Valid() && Pid(p)
      modifies Repr()
      ensures Valid() && View() == FreePtbl(old(View()), p, va)
    {
      AddressParts(va);
      var pde := GetPdirEntryByVa(p, va);
      var page := pde / 4096;
      RmvPdirEntry(p, va / 0x40_0000);
      pool.ContainerFree(p, page);
    }

    /* ----- MPTKern ----- */

    method DoMapPage(p: int, va: u32, page: u32, perm: int) returns (r: u32)
      requires Valid() && Pid(p) && PmmOk(View().pool.pmm) && 0 <= perm < 4096
      modifies Repr()
      ensures Valid() && (View(), r) == MapPage(old(View()), p, va, page, perm)
    {
      var pde := GetPdirEntryByVa(p, va);
      if pde % 2 == 0 {
        var table := DoAllocPtbl(p, va);
        if table == 0 {
          return MAGIC_NUMBER;
        }
      }
      SetPtblEntryByVa(p, va, page, perm);
      r := GetPdirEntryByVa(p, va);
    }

    method DoUnmapPage(p: int, va: u32) returns (r: u32)
      requires Valid() && Pid(p)
      modifies mem
      ensures Valid() && (View(), r) == UnmapPage(old(View()), p, va)
    {
      var pde := GetPdirEntryByVa(p, va);
      if pde % 2 == 0 {
        return 0;
      }
      r := GetPtblEntryByVa(p, va);
      if r % 2 == 0 {
        return 0;
      }
      RmvPtblEntryByVa(p, va);
    }

    /* ----- MPTNew ----- */

    method DoAllocPage(p: int, va: u32, perm: int) returns (r: u32)
      requires Valid() && Pid(p) && PmmOk(View().pool.pmm) && 0 <= perm < 4096
      modifies Repr()
      ensures Valid() && (View(), r) == AllocPage(old(View()), p, va, perm)
    {
      PallocFirstFit(View().pool.pmm);
      hide PmmOk, Palloc;
      var page := pool.ContainerAlloc(p);
      if page == 0 {
        return MAGIC_NUMBER;
      }
      r := DoMapPage(p, va, page, perm);
      if r == MAGIC_NUMBER {
        pool.ContainerFree(p, page);
      }
    }

    method DoAllocMemQuota(id: int, quota: u32) returns (child: int)
      requires Valid() && Id(id)
      modifies Repr()
      ensures Valid() && (View(), child) == AllocMemQuota(old(View()), id, quota)
    { child := pool.ContainerSplit(id, quota); }

    /* ----- initialisation ----- */

    // idptbl_init after container_init
    method FillIdTables()
      requires Valid()
      modifies mem
      ensures IdFilled(mem[..], 1024, 0)
    {
      var d := 0;
      hide PutWord, IdPte;
      while d < 1024
        invariant 0 <= d <= 1024 && IdFilled(mem[..], d, 0)
      {
        var t := 0;
        while t < 1024
          invariant 0 <= t <= 1024 && IdFilled(mem[..], d, t)
        {
          IdStep(mem[..], d, t);
          if d < VM_USERLO / 4096 / 1024 || d >= VM_USERHI / 4096 / 1024 {
            SetPtblEntryIdentity(d, t, PTE_P + PTE_W + PTE_G);
          } else {
            SetPtblEntryIdentity(d, t, PTE_P + PTE_W);
          }
          t := t + 1;
        }
        d := d + 1;
      }
    }

    method IdptblInit(es: seq<MmapEntry>)
      requires Valid() && pool.Zeroed() && |Collect(es)| <= 128
      modifies Repr()
      ensures Valid() && IdFilled(mem[..], 1024, 0)
      ensures Initialised(View().pool.pmm, Rows(es)) && View().pool.cs == BootContainers(|NormalPages(View().pool.pmm)|)
    {
      pool.ContainerInit(es);
      FillIdTables();
    }

    method PdirInit(es: seq<MmapEntry>)
      requires Valid() && pool.Zeroed() && |Collect(es)| <= 128
      modifies Repr()
      ensures Valid() && IdFilled(mem[..], 1024, 0) && DirFilled(mem[..], 64, 0)
      ensures Initialised(View().pool.pmm, Rows(es)) && View().pool.cs == BootContainers(|NormalPages(View().pool.pmm)|)
    {
      IdptblInit(es);
      FillDirectories();
    }

    method FillDirectories()
      requires Valid() && IdFilled(mem[..], 1024, 0)
      modifies mem
      ensures IdFilled(mem[..], 1024, 0) && DirFilled(mem[..], 64, 0)
    {
      var p := 0;
      hide SetPde, Pde, IdPte;
      while p < NUM_IDS
        invariant 0 <= p <= 64 && DirFilled(mem[..], p, 0) && IdFilled(mem[..], 1024, 0)
      {
        var d := 0;
        while d < 1024
          invariant 0 <= d <= 1024 && DirFilled(mem[..], p, d) && IdFilled(mem[..], 1024, 0)
        {
          DirStep(mem[..], p, d);
          if d < VM_USERLO / 4096 / 1024 || d >= VM_USERHI / 4096 / 1024 {
            SetPdirEntryIdentity(p, d);
          } else {
            RmvPdirEntry(p, d);
          }
          d := d + 1;
        }
        p := p + 1;
      }
    }

    method FillKernelDirectory()
      requires Valid() && IdFilled(mem[..], 1024, 0) && DirFilled(mem[..], 64, 0)
      modifies mem
      ensures IdFilled(mem[..], 1024, 0) && KernFilled(mem[..], 1024)
    {
      var d := 0;
      hide SetPde, Pde, IdPte;
      while d < 1024
        invariant 0 <= d <= 1024 && KernFilled(mem[..], d) && IdFilled(mem[..], 1024, 0)
      {
        KernStep(mem[..], d);
        SetPdirEntryIdentity(0, d);
        d := d + 1;
      }
    }

    // From any memory contents and any firmware map: balanced accounts whose root quota is the number of
    // allocatable pages, kernel identity everywhere, and no user mapping.
    method PdirInitKern(es: seq<MmapEntry>)
      requires Valid() && pool.Zeroed() && |Collect(es)| <= 128
      modifies Repr()
      ensures Valid() && Solvent(View()) && Flat(View().mem) == map[] && (forall x :: !Live(View().mem, x))
      ensures forall p, va: u32 :: Pid(p) ==> Mmu(View().mem, p, va) == BootTranslation(p, va)
      ensures Initialised(View().pool.pmm, Rows(es)) && View().pool.cs == BootContainers(|NormalPages(View().pool.pmm)|)
    {
      PdirInit(es);
      FillKernelDirectory();
      BootTables(mem[..]);
      BootLedger(View().pool, Rows(es));
      InitialisedOk(View().pool.pmm, Rows(es));
      hide IdFilled, KernFilled, Flat, TablesOk, Ledger, Initialised, PmmOk, Mmu, BootTranslation;
      forall p, va: u32 | Pid(p)
        ensures Mmu(mem[..], p, va) == BootTranslation(p, va)
      {
        BootTranslates(mem[..], p, va);
      }
    }
  }
}
