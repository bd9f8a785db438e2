// kern/lib/elf.c: the segment loader, page by page.
module Loader {
  import opened Words
  import opened PageAllocator
  import opened Containers
  import opened PageTables
  import opened PageMaps
  import opened Quota
  import opened Budget
  import opened UserCopy

  const ELF_PROG_LOAD := 1
  const VM_DYNLINK := 0xE000_0000
  const DLL_SIZE := 4096   // sizeof(dll): 1024 pointers

  // The fields of a program header that the loader reads ("Program Header", TIS ELF specification 1.2).
  datatype Phdr = Phdr(typ: u32, offset: u32, va: u32, filesz: u32, memsz: u32, flags: u32) {
    predicate Load() { typ == ELF_PROG_LOAD }
    function Zva(): u32 { ToU32(va + filesz) }
    function Start(): int { RoundDown(va) }
    function Perm(): int { if flags / 2 % 2 == 1 then PTE_U + PTE_P + PTE_W else PTE_U + PTE_P }
  }

  // roundup(p_va + p_memsz, PAGESIZE)
  function End(ph: Phdr): int { RoundUp(ToU32(ph.va + ph.memsz)) }

  // The file pages the loader goes through are memory.
  predicate InMemory(ph: Phdr, exe: int) {
    0 <= exe && (ph.Start() < End(ph) ==> exe + RoundDown(ph.offset) + (End(ph) - ph.Start()) <= MEM_SIZE)
  }

  // Moreover its pages are user pages.
  predicate Placed(ph: Phdr, exe: int): (r: bool)
    ensures r ==> InMemory(ph, exe)
  { InMemory(ph, exe) && (ph.Start() < End(ph) ==> VM_USERLO <= ph.Start() && End(ph) <= VM_USERHI) }

  // Moreover it is well formed: nothing wraps, no more bytes in the file than in memory, file and memory
  // aligned alike, and the file part below user memory.
  predicate SegmentOk(ph: Phdr, exe: int): (r: bool)
    ensures r ==> Placed(ph, exe)
  {
    && Placed(ph, exe)
    && VM_USERLO <= ph.va && ph.va + ph.memsz <= VM_USERHI && ph.filesz <= ph.memsz
    && ph.offset % 4096 == ph.va % 4096 && 0 <= exe && exe + ph.offset + ph.filesz <= VM_USERLO
  }

  lemma SegmentBounds(ph: Phdr, exe: int)
    requires SegmentOk(ph, exe)
    ensures ph.Start() % 4096 == 0 == End(ph) % 4096 && VM_USERLO <= ph.Start() <= ph.va < ph.Start() + 4096
    ensures ph.Start() <= End(ph) <= VM_USERHI
    ensures ph.va + ph.memsz <= End(ph) && ph.Zva() == ph.va + ph.filesz <= End(ph)
    ensures RoundDown(ph.offset) + (ph.va - ph.Start()) == ph.offset
    ensures exe + RoundDown(ph.offset) + (End(ph) - ph.Start()) <= 0xF000_0000
  {
    hide RoundDown, RoundUp, Phdr.Perm, Placed;
    RoundedDown(ph.va);
    RoundedDown(ph.offset);
    RoundedUp(ph.va + ph.memsz);
    NextPage(ph.Start(), End(ph));
  }

  lemma RoundedDown(a: u32)
    ensures RoundDown(a) % 4096 == 0 && RoundDown(a) + a % 4096 == a && a < RoundDown(a) + 4096
    ensures VM_USERLO <= a ==> VM_USERLO <= RoundDown(a)
  {
    PageSplit(a / 4096, 0);
  }

  lemma RoundedUp(a: u32)
    requires a <= VM_USERHI
    ensures RoundUp(a) % 4096 == 0 && a <= RoundUp(a) < a + 4096 && RoundUp(a) <= VM_USERHI
  {
    RoundingBrackets(a, 4096);
    PageRounding(a);
    hide RoundUp, RoundUpTo;
    assert Multiple(VM_USERHI, 4096);
  }

  lemma NextPage(va: int, eva: int)
    requires va % 4096 == 0 == eva % 4096
    ensures va < eva ==> va + 4096 <= eva
    ensures eva - va > -4096 ==> va <= eva
    ensures (va + 4096) % 4096 == 0
  {
    assert va == 4096 * (va / 4096) && eva == 4096 * (eva / 4096);
    PageSplit(va / 4096 + 1, 0);
  }

  /* ----- operations ----- */

  // What follows alloc_page in the page loop: copy a complete page, copy a partial page, or zero a page.
  function FillPage(s: Machine, p: int, fa: u32, va: u32, zva: u32, filesz: u32): (r: Machine)
    requires Pid(p) && PmmOk(s.pool.pmm) && fa + 4096 <= MEM_SIZE && va % 4096 == 0
    ensures PmmOk(r.pool.pmm)
  {
    hide PmmOk, RoundDown, PtCopyout, PtMemset;
    if va < RoundDown(zva) then PtCopyout(s, fa, p, va, 4096).0
    else
      Leftover(va, zva);
      var s1 := PtMemset(s, p, va, 0, 4096).0;
      if va < zva && filesz != 0 then PtCopyout(s1, fa, p, va, zva - va).0 else s1
  }

  function LoadPage(s: Machine, p: int, fa: u32, va: u32, zva: u32, filesz: u32, perm: int): (r: Machine)
    requires Pid(p) && PmmOk(s.pool.pmm) && 0 <= perm < 4096 && fa + 4096 <= MEM_SIZE && va % 4096 == 0
    ensures PmmOk(r.pool.pmm)
  {
    AllocPageCursor(s, p, va, perm);
    hide PmmOk;
    FillPage(AllocPage(s, p, va, perm).0, p, fa, va, zva, filesz)
  }

  lemma Leftover(va: u32, zva: u32)
    requires va % 4096 == 0 && !(va < RoundDown(zva))
    ensures zva - va < 4096
  {
  }

  // Whole pages from va to eva, as many bytes from fa on in memory.
  predicate PagesInMemory(fa: int, va: int, eva: int) {
    && 0 <= va && eva < MEM_SIZE && va % 4096 == 0 == eva % 4096
    && 0 <= fa && (va < eva ==> fa + (eva - va) <= MEM_SIZE)
  }

  lemma NextPages(fa: int, va: int, eva: int)
    requires PagesInMemory(fa, va, eva) && va < eva
    ensures 0 <= va < va + 4096 <= eva < MEM_SIZE && 0 <= fa && fa + 4096 <= MEM_SIZE && va % 4096 == 0
    ensures PagesInMemory(fa + 4096, va + 4096, eva)
  {
    NextPage(va, eva);
  }

  function LoadPages(s: Machine, p: int, fa: int, va: int, eva: int, zva: u32, filesz: u32, perm: int): (r: Machine)
    requires Pid(p) && PmmOk(s.pool.pmm) && 0 <= perm < 4096 && PagesInMemory(fa, va, eva)
    ensures PmmOk(r.pool.pmm)
    decreases eva - va
  {
    hide PmmOk, LoadPage, PagesInMemory;
    if va >= eva then s
    else
      NextPages(fa, va, eva);
      var s1 := LoadPage(s, p, fa, va, zva, filesz, perm);
      LoadPages(s1, p, fa + 4096, va + 4096, eva, zva, filesz, perm)
  }

  function LoadSegment(s: Machine, p: int, exe: int, ph: Phdr): (r: Machine)
    requires Pid(p) && PmmOk(s.pool.pmm) && (ph.Load() ==> InMemory(ph, exe))
    ensures PmmOk(r.pool.pmm)
  {
    hide PmmOk;
    if !ph.Load() then s
    else
      PageBounds(ph);
      LoadPages(s, p, exe + RoundDown(ph.offset), ph.Start(), End(ph), ph.Zva(), ph.filesz, ph.Perm())
  }

  lemma PageBounds(ph: Phdr)
    ensures ph.Start() % 4096 == 0 == End(ph) % 4096
  {
    hide RoundDown, ToU32;
    RoundedDown(ph.va);
    RoundedDown(ToU32(ToU32(ph.va + ph.memsz) + 4095));
  }

  predicate AllInMemory(phs: seq<Phdr>, exe: int) {
    forall k :: 0 <= k < |phs| && phs[k].Load() ==> InMemory(phs[k], exe)
  }

  predicate AllPlaced(phs: seq<Phdr>, exe: int): (r: bool)
    ensures r ==> AllInMemory(phs, exe)
  { forall k :: 0 <= k < |phs| && phs[k].Load() ==> Placed(phs[k], exe) }

  predicate SegmentsOk(phs: seq<Phdr>, exe: int): (r: bool)
    ensures r ==> AllPlaced(phs, exe)
  { forall k :: 0 <= k < |phs| && phs[k].Load() ==> SegmentOk(phs[k], exe) }

  function LoadSegments(s: Machine, p: int, exe: int, phs: seq<Phdr>): (r: Machine)
    requires Pid(p) && PmmOk(s.pool.pmm) && AllInMemory(phs, exe)
    ensures PmmOk(r.pool.pmm)
    decreases |phs|
  {
    hide PmmOk, InMemory;
    if phs == [] then s
    else LoadSegments(LoadSegment(s, p, exe, phs[0]), p, exe, phs[1..])
  }

  function ElfLoad(s: Machine, p: int, exe: int, phs: seq<Phdr>, dll: u32): Machine
    requires Pid(p) && PmmOk(s.pool.pmm) && AllInMemory(phs, exe) && dll + DLL_SIZE <= MEM_SIZE
  {
    PtCopyout(LoadSegments(s, p, exe, phs), dll, p, VM_DYNLINK, DLL_SIZE).0
  }

  /* ----- one page ----- */

  // The byte the loader owes to user address w of a page at va: file byte or zero.
  function PageByte(m: Mem, fa: int, va: int, zva: int, filesz: int, w: int): byte
    requires 0 <= fa && va <= w && fa + (w - va) < MEM_SIZE
  { if filesz != 0 && w < zva then m[fa + (w - va)] else 0 }

  // How many bytes of the page come from the file.
  function FileLen(va: int, zva: int, filesz: int): int {
    if filesz != 0 && va < zva then zva - va else 0
  }

  // A write inside one mapped page takes nothing.
  lemma {:induction false} WriteInPage(s: Machine, p: int, va: u32, n: int, src: Source)
    requires Inv(s) && UserPid(p) && UserRange(va, 4096) && va % 4096 == 0 && Mapped(s.mem, p, va) && 0 < n <= 4096
    requires SourceInRange(src, n) && SourceSafe(s, src, n) && PmmOk(s.pool.pmm)
    ensures Written(s, WriteUser(s, p, va, n, src), p, va, n, src, 0)
    ensures Opened(s.mem, WriteUser(s, p, va, n, src).mem, p, {PdeIdx(va)})
  {
    hide Inv, PmmOk, WriteUser, Took, Confined, Holds, SourceSafe, Mapped, Needs, Opened, Slots, FreePages;
    OneChunk(s.mem, p, va, n);
    OneSlot(va, n);
    WriteUserCorrect(s, p, va, n, src);
  }

  lemma OneChunk(m: Mem, p: int, va: u32, n: int)
    requires UserPid(p) && UserRange(va, 4096) && va % 4096 == 0 && Mapped(m, p, va) && 0 < n <= 4096
    ensures Needs(m, p, va, n) == 0
  {
    hide Mapped, Needs;
    forall vb: u32 | va <= vb < va + n
      ensures Mapped(m, p, vb)
    {
      InPageIff(va, vb);
      SamePageMapped(m, p, va);
      SamePageMapped(m, p, vb);
    }
    MappedNeedsNothing(m, p, va, n);
  }

  ghost predicate Filled(s: Machine, s': Machine, p: int, fa: u32, va: u32, zva: u32, filesz: u32)
    requires Pid(p) && fa + 4096 <= VM_USERHI
  {
    && Inv(s') && Took(s.pool, s'.pool, p, 0) && Opened(s.mem, s'.mem, p, {PdeIdx(va)})
    && Confined(s, s', p, va, va + 4096)
    && forall w: u32 :: va <= w < va + 4096 ==>
      Mapped(s'.mem, p, w) && UserByte(s'.mem, p, w) == PageByte(s.mem, fa, va, zva, filesz, w)
  }

  predicate PageArgs(p: int, fa: u32, va: u32, zva: u32, filesz: u32) {
    && UserPid(p) && fa + 4096 <= VM_USERHI && UserRange(va, 4096) && va % 4096 == 0 && zva <= VM_USERHI
    && (filesz == 0 ==> zva < va + 4096)
  }

  lemma CompletePage(s: Machine, p: int, fa: u32, va: u32, zva: u32, filesz: u32)
    requires Inv(s) && PageArgs(p, fa, va, zva, filesz) && Mapped(s.mem, p, va)
    requires va + 4096 <= zva && KernelBuffer(s, fa, 4096) && PmmOk(s.pool.pmm)
    ensures Filled(s, PtCopyout(s, fa, p, va, 4096).0, p, fa, va, zva, filesz)
  {
    hide WriteUser, Inv, PmmOk, Written, Filled, Mapped, Opened;
    WriteInPage(s, p, va, 4096, Kernel(fa));
    FilledFromFile(s, WriteUser(s, p, va, 4096, Kernel(fa)), p, fa, va, zva, filesz);
  }

  lemma FilledFromFile(s: Machine, s': Machine, p: int, fa: u32, va: u32, zva: u32, filesz: u32)
    requires PageArgs(p, fa, va, zva, filesz) && va + 4096 <= zva && Written(s, s', p, va, 4096, Kernel(fa), 0)
    requires Opened(s.mem, s'.mem, p, {PdeIdx(va)})
    ensures Filled(s, s', p, fa, va, zva, filesz)
  {
    hide Inv, Took, Opened, Confined, Mapped, UserByte;
  }

  lemma ZeroPage(s: Machine, p: int, fa: u32, va: u32, zva: u32, filesz: u32)
    requires Inv(s) && PageArgs(p, fa, va, zva, filesz) && Mapped(s.mem, p, va) && PmmOk(s.pool.pmm)
    ensures var s1 := PtMemset(s, p, va, 0, 4096).0;
      && Written(s, s1, p, va, 4096, Constant(0), 0) && Opened(s.mem, s1.mem, p, {PdeIdx(va)})
      && (filesz == 0 || zva <= va ==> Filled(s, s1, p, fa, va, zva, filesz))
  {
    hide WriteUser, Inv, Took, Opened, Confined, Lookup, Phys, PmmOk, Slots;
    WriteInPage(s, p, va, 4096, Constant(0));
  }

  // Zeroing first and copying the file's tail over it.
  lemma PartialPage(s: Machine, p: int, fa: u32, va: u32, zva: u32, filesz: u32)
    requires Inv(s) && PageArgs(p, fa, va, zva, filesz) && Mapped(s.mem, p, va) && PmmOk(s.pool.pmm)
    requires va < zva < va + 4096 && filesz != 0 && KernelBuffer(s, fa, zva - va)
    ensures Filled(s, PtCopyout(PtMemset(s, p, va, 0, 4096).0, fa, p, va, zva - va).0, p, fa, va, zva, filesz)
  {
    hide PtMemset, Inv, PmmOk, Written, Mapped, Filled, KernelBuffer, Opened;
    var s1 := PtMemset(s, p, va, 0, 4096).0;
    ZeroPage(s, p, fa, va, zva, filesz);
    ReadyAgain(s, s1, p, fa, va, zva - va);
    WriteInPage(s1, p, va, zva - va, Kernel(fa));
    Overlaid(s, s1, WriteUser(s1, p, va, zva - va, Kernel(fa)), p, fa, va, zva, filesz);
  }

  lemma ReadyAgain(s: Machine, s1: Machine, p: int, fa: u32, va: u32, n: int)
    requires UserPid(p) && UserRange(va, 4096) && Written(s, s1, p, va, 4096, Constant(0), 0) && KernelBuffer(s, fa, n)
    ensures Inv(s1) && PmmOk(s1.pool.pmm) && Mapped(s1.mem, p, va) && KernelBuffer(s1, fa, n)
  {
    InvPmm(s1);
    hide Inv, PmmOk, Took, Opened, KeepsLookups, KeepsBytes, MapsOnly, Mapped, KernelByte, UserByte;
    StillSafe(s, s1, fa, n);
  }

  lemma Overlaid(s: Machine, s1: Machine, s2: Machine, p: int, fa: u32, va: u32, zva: u32, filesz: u32)
    requires PageArgs(p, fa, va, zva, filesz) && va < zva < va + 4096 && filesz != 0 && KernelBuffer(s, fa, zva - va)
    requires Written(s, s1, p, va, 4096, Constant(0), 0) && Written(s1, s2, p, va, zva - va, Kernel(fa), 0)
    requires Opened(s.mem, s1.mem, p, {PdeIdx(va)}) && Opened(s1.mem, s2.mem, p, {PdeIdx(va)})
    ensures Filled(s, s2, p, fa, va, zva, filesz)
  {
    hide Inv, Took, Opened, Slots, PdeIdx, Confined, Mapped, UserByte, KernelByte, Holds;
    ConfinedKernel(s, s1, p, va, va + 4096);
    StillSafe(s, s1, fa, zva - va);
    OverlaidBytes(s, s1, s2, p, fa, va, zva, filesz);
    TookTrans(s.pool, s1.pool, s2.pool, p, 0, 0);
    OpenedTrans(s.mem, s1.mem, s2.mem, p, {PdeIdx(va)}, {PdeIdx(va)});
    assert {PdeIdx(va)} + {PdeIdx(va)} == {PdeIdx(va)};
    ConfinedTrans(s, s1, s2, p, va, va + 4096, va, zva, va, va + 4096);
  }

  lemma OverlaidBytes(s: Machine, s1: Machine, s2: Machine, p: int, fa: u32, va: u32, zva: u32, filesz: u32)
    requires PageArgs(p, fa, va, zva, filesz) && va < zva < va + 4096 && filesz != 0
    requires forall i :: fa <= i < fa + (zva - va) ==> s1.mem[i] == s.mem[i]
    requires Written(s, s1, p, va, 4096, Constant(0), 0) && Written(s1, s2, p, va, zva - va, Kernel(fa), 0)
    ensures forall w: u32 :: va <= w < va + 4096 ==>
      Mapped(s2.mem, p, w) && UserByte(s2.mem, p, w) == PageByte(s.mem, fa, va, zva, filesz, w)
  {
    hide Inv, Took, Opened, Lookup, Phys, KernelByte;
    forall w: u32 | va <= w < va + 4096
      ensures Mapped(s2.mem, p, w) && UserByte(s2.mem, p, w) == PageByte(s.mem, fa, va, zva, filesz, w)
    {
      assert Mapped(s1.mem, p, w) && UserByte(s1.mem, p, w) == 0;
    }
  }

  lemma FillPageCorrect(s: Machine, p: int, fa: u32, va: u32, zva: u32, filesz: u32)
    requires Inv(s) && PageArgs(p, fa, va, zva, filesz) && Mapped(s.mem, p, va) && PmmOk(s.pool.pmm)
    requires KernelBuffer(s, fa, Min(FileLen(va, zva, filesz), 4096))
    ensures Filled(s, FillPage(s, p, fa, va, zva, filesz), p, fa, va, zva, filesz)
  {
    RoundedDown(zva);
    NextPage(va, RoundDown(zva));
    hide Inv, PmmOk, PtCopyout, PtMemset, Filled, Written, KernelBuffer, RoundDown, Mapped;
    if va < RoundDown(zva) {
      CompletePage(s, p, fa, va, zva, filesz);
    } else if va < zva && filesz != 0 {
      PartialPage(s, p, fa, va, zva, filesz);
    } else {
      ZeroPage(s, p, fa, va, zva, filesz);
    }
  }

  // Byte w of process p is mapped with these flags and reads as b.
  predicate Shows(m: Mem, p: int, w: u32, perm: int, b: byte)
    requires Pid(p)
  { Mapped(m, p, w) && Lookup(m, p, w) % 4096 == perm && UserByte(m, p, w) == b }

  // Everything that was mapped outside pages [lo, hi) of process p is kept, and nothing is mapped there.
  ghost predicate Outside(s: Machine, s': Machine, p: int, lo: int, hi: int) {
    && (forall q, vb: u32 :: UserPid(q) && UserVa(vb) && Mapped(s.mem, q, vb) && !(q == p && lo <= vb < hi) ==>
         Lookup(s'.mem, q, vb) == Lookup(s.mem, q, vb) && UserByte(s'.mem, q, vb) == UserByte(s.mem, q, vb))
    && MapsOnly(s.mem, s'.mem, p, lo, hi) && KeepsKernel(s, s')
  }

  lemma ConfinedOutside(s: Machine, s': Machine, p: int, lo: int, hi: int)
    requires Confined(s, s', p, lo, hi)
    ensures Outside(s, s', p, lo, hi)
  {
    hide Lookup, Phys, KernelByte;
  }

  lemma OutsideTrans(s: Machine, s1: Machine, s2: Machine, p: int, lo1: int, hi1: int, lo2: int, hi2: int, lo: int,
      hi: int)
    requires Outside(s, s1, p, lo1, hi1) && Outside(s1, s2, p, lo2, hi2)
    requires 0 <= lo <= lo1 && lo <= lo2 && hi1 <= hi && hi2 <= hi
    ensures Outside(s, s2, p, lo, hi)
  {
    hide Lookup, Phys, StaticByte;
  }

  lemma OutsideRefl(s: Machine, p: int, lo: int, hi: int)
    ensures Outside(s, s, p, lo, hi)
  {
    hide Lookup, Phys, StaticByte;
  }

  lemma InPageIff(va: u32, vb: u32)
    requires va % 4096 == 0
    ensures va / 4096 == vb / 4096 <==> va <= vb < va + 4096
  {
  }

  // alloc_page in the loader: also when the page was mapped before, which is then replaced.
  lemma AllocOutside(s: Machine, p: int, va: u32, perm: int)
    requires Inv(s) && UserPid(p) && UserRange(va, 4096) && va % 4096 == 0 && 0 <= perm < 4096 && perm % 2 == 1
    requires AllocPage(s, p, va, perm).1 != MAGIC_NUMBER
    ensures var s1 := AllocPage(s, p, va, perm).0;
      Outside(s, s1, p, va, va + 4096) && Mapped(s1.mem, p, va) && Lookup(s1.mem, p, va) % 4096 == perm
  {
    var s1 := AllocPage(s, p, va, perm).0;
    AllocNewPage(s, p, va, perm);
    EntryParts(Alloc(s.pool, p).1, perm);
    AllocKeepsKernel(s, p, va, perm);
    hide AllocPage, Alloc, Inv, Entry, Lookup, KeepsKernel, Present, UserByte;
    forall q, vb: u32 | UserPid(q) && UserVa(vb) && Mapped(s.mem, q, vb) && !(q == p && va <= vb < va + 4096)
      ensures Lookup(s1.mem, q, vb) == Lookup(s.mem, q, vb) && UserByte(s1.mem, q, vb) == UserByte(s.mem, q, vb)
    {
      InPageIff(va, vb);
      AllocKeepsBytes(s, p, va, perm, q, vb);
    }
    forall q, vb: u32 | UserPid(q) && UserVa(vb) && !Mapped(s.mem, q, vb) && Mapped(s1.mem, q, vb)
      ensures q == p && va / 4096 * 4096 <= vb && vb / 4096 * 4096 < va + 4096
    {
      InPageIff(va, vb);
    }
  }

  ghost predicate PageLoaded(s: Machine, s': Machine, p: int, fa: u32, va: u32, zva: u32, filesz: u32, perm: int)
    requires Pid(p) && fa + 4096 <= VM_USERHI
  {
    && Inv(s') && Took(s.pool, s'.pool, p, Cost(s, p, va)) && Opened(s.mem, s'.mem, p, {PdeIdx(va)})
    && Outside(s, s', p, va, va + 4096)
    && forall w: u32 :: va <= w < va + 4096 ==> Shows(s'.mem, p, w, perm, PageByte(s.mem, fa, va, zva, filesz, w))
  }

  lemma LoadPageCorrect(s: Machine, p: int, fa: u32, va: u32, zva: u32, filesz: u32, perm: int)
    requires Inv(s) && PageArgs(p, fa, va, zva, filesz) && Cost(s, p, va) <= |FreePages(s.pool.pmm)|
    requires PmmOk(s.pool.pmm)
    requires 0 <= perm < 4096 && perm % 2 == 1 && KernelBuffer(s, fa, Min(FileLen(va, zva, filesz), 4096))
    ensures PageLoaded(s, LoadPage(s, p, fa, va, zva, filesz, perm), p, fa, va, zva, filesz, perm)
  {
    hide Inv, AllocPage, FillPage, Outside, Mapped, Lookup, Filled, KernelBuffer, PmmOk, Took, Opened;
    hide PageLoaded, FileLen, SameBytes, Cost, FreePages;
    AllocPageCursor(s, p, va, perm);
    LoadAlloc(s, p, va, perm);
    SourceKept(s, AllocPage(s, p, va, perm).0, p, va, fa, Min(FileLen(va, zva, filesz), 4096));
    FillPageCorrect(AllocPage(s, p, va, perm).0, p, fa, va, zva, filesz);
    PageDone(s, AllocPage(s, p, va, perm).0, LoadPage(s, p, fa, va, zva, filesz, perm), p, fa, va, zva, filesz, perm);
  }

  predicate SameBytes(m: Mem, m1: Mem, a: int, n: int) {
    0 <= a && 0 <= n && a + n <= MEM_SIZE && forall i :: a <= i < a + n ==> m1[i] == m[i]
  }

  lemma SourceKept(s: Machine, s1: Machine, p: int, va: int, fa: int, n: int)
    requires Outside(s, s1, p, va, va + 4096) && KernelBuffer(s, fa, n)
    ensures KernelBuffer(s1, fa, n) && SameBytes(s.mem, s1.mem, fa, n)
  {
    OutsideKernel(s, s1, p, va, va + 4096);
    hide KernelByte, Outside, KeepsKernel;
    StillSafe(s, s1, fa, n);
  }

  lemma OutsideKernel(s: Machine, s1: Machine, p: int, lo: int, hi: int)
    requires Outside(s, s1, p, lo, hi)
    ensures KeepsKernel(s, s1)
  {
  }

  lemma LoadAlloc(s: Machine, p: int, va: u32, perm: int)
    requires Inv(s) && UserPid(p) && UserRange(va, 4096) && va % 4096 == 0 && 0 <= perm < 4096 && perm % 2 == 1
    requires Cost(s, p, va) <= |FreePages(s.pool.pmm)| && PmmOk(s.pool.pmm)
    ensures var s1 := AllocPage(s, p, va, perm).0;
      && Inv(s1) && PmmOk(s1.pool.pmm) && Took(s.pool, s1.pool, p, Cost(s, p, va))
      && Opened(s.mem, s1.mem, p, {PdeIdx(va)})
      && Outside(s, s1, p, va, va + 4096) && Mapped(s1.mem, p, va) && Lookup(s1.mem, p, va) % 4096 == perm
  {
    hide Inv, Took, AllocPage, Lookup, Outside, Mapped, Cost, FreePages, PmmOk, Opened;
    AllocPageIff(s, p, va, perm);
    AllocPageInv(s, p, va, perm);
    InvPmm(AllocPage(s, p, va, perm).0);
    AllocOnePage(s, p, va, perm);
    AllocOutside(s, p, va, perm);
  }

  lemma PageDone(s: Machine, s1: Machine, s2: Machine, p: int, fa: u32, va: u32, zva: u32, filesz: u32, perm: int)
    requires PageArgs(p, fa, va, zva, filesz) && Outside(s, s1, p, va, va + 4096)
    requires Took(s.pool, s1.pool, p, Cost(s, p, va)) && Opened(s.mem, s1.mem, p, {PdeIdx(va)})
    requires Mapped(s1.mem, p, va) && Lookup(s1.mem, p, va) % 4096 == perm
    requires Filled(s1, s2, p, fa, va, zva, filesz)
    requires KernelBuffer(s, fa, Min(FileLen(va, zva, filesz), 4096))
    requires SameBytes(s.mem, s1.mem, fa, Min(FileLen(va, zva, filesz), 4096))
    ensures PageLoaded(s, s2, p, fa, va, zva, filesz, perm)
  {
    hide Inv, Lookup, UserByte, Outside, Confined, Took, Opened, Shows, KernelBuffer, Mapped, PageByte;
    hide FileLen, SameBytes, PdeIdx, Present;
    ConfinedOutside(s1, s2, p, va, va + 4096);
    OutsideTrans(s, s1, s2, p, va, va + 4096, va, va + 4096, va, va + 4096);
    TookTrans(s.pool, s1.pool, s2.pool, p, Cost(s, p, va), 0);
    OpenedTrans(s.mem, s1.mem, s2.mem, p, {PdeIdx(va)}, {PdeIdx(va)});
    assert {PdeIdx(va)} + {PdeIdx(va)} == {PdeIdx(va)};
    forall w: u32 | va <= w < va + 4096
      ensures Shows(s2.mem, p, w, perm, PageByte(s.mem, fa, va, zva, filesz, w))
    {
      ByteShown(s, s1, s2, p, fa, va, zva, filesz, perm, w);
    }
  }

  lemma ByteShown(s: Machine, s1: Machine, s2: Machine, p: int, fa: u32, va: u32, zva: u32, filesz: u32, perm: int,
      w: u32)
    requires PageArgs(p, fa, va, zva, filesz) && va <= w < va + 4096
    requires Mapped(s1.mem, p, va) && Lookup(s1.mem, p, va) % 4096 == perm && Confined(s1, s2, p, va, va + 4096)
    requires Mapped(s2.mem, p, w) && UserByte(s2.mem, p, w) == PageByte(s1.mem, fa, va, zva, filesz, w)
    requires SameBytes(s.mem, s1.mem, fa, Min(FileLen(va, zva, filesz), 4096))
    ensures Shows(s2.mem, p, w, perm, PageByte(s.mem, fa, va, zva, filesz, w))
  {
    hide Lookup, UserByte, KeepsKernel, KeepsBytes, MapsOnly;
    InPageIff(va, w);
    SamePageLookup(s1.mem, p, va, w);
    assert Lookup(s2.mem, p, w) == Lookup(s1.mem, p, w);
  }

  /* ----- one segment ----- */

  predicate PagesArgs(p: int, fa: int, va: int, eva: int, zva: u32, filesz: u32) {
    && UserPid(p) && UserRange(va, eva - va) && va % 4096 == 0 == eva % 4096 && zva <= eva
    && 0 <= fa && fa + (eva - va) <= VM_USERHI && (filesz == 0 ==> zva < va + 4096)
  }

  function PageCount(va: int, eva: int): int { (eva - va) / 4096 }

  // What loading [va, eva) takes: a page each, and the tables it misses.
  ghost function RangeNeeds(m: Mem, p: int, va: int, eva: int): int
    requires Pid(p)
  { PageCount(va, eva) + |Absent(m, p, Slots(va, eva))| }

  ghost predicate RangeLoaded(s: Machine, s': Machine, p: int, fa: int, va: int, eva: int, zva: u32, filesz: u32,
      perm: int)
    requires Pid(p) && 0 <= fa && fa + (eva - va) <= VM_USERHI
  {
    && Inv(s') && Took(s.pool, s'.pool, p, RangeNeeds(s.mem, p, va, eva)) && Opened(s.mem, s'.mem, p, Slots(va, eva))
    && Outside(s, s', p, va, eva)
    && forall w: u32 :: va <= w < eva ==> Shows(s'.mem, p, w, perm, PageByte(s.mem, fa, va, zva, filesz, w))
  }

  ghost predicate CanLoad(s: Machine, p: int, fa: int, va: int, eva: int, zva: u32, filesz: u32) {
    && Inv(s) && PagesArgs(p, fa, va, eva, zva, filesz) && KernelBuffer(s, fa, FileLen(va, zva, filesz))
    && RangeNeeds(s.mem, p, va, eva) <= |FreePages(s.pool.pmm)|
  }

  lemma PageCountStep(va: int, eva: int)
    requires va % 4096 == 0 == eva % 4096 && va < eva
    ensures PageCount(va, eva) == 1 + PageCount(va + 4096, eva) && 0 <= PageCount(va + 4096, eva) && va + 4096 <= eva
    ensures (va + 4096) % 4096 == 0
  {
    NextPage(va, eva);
    var q := eva / 4096 - va / 4096;
    assert eva - va == 4096 * q;
    PageSplit(q, 0);
    PageSplit(q - 1, 0);
  }

  lemma RangeNeedsStep(s: Machine, m1: Mem, p: int, va: int, eva: int)
    requires UserPid(p) && UserRange(va, eva - va) && va % 4096 == 0 == eva % 4096 && va < eva
    requires Opened(s.mem, m1, p, {PdeIdx(va)})
    ensures RangeNeeds(s.mem, p, va, eva) == Cost(s, p, va) + RangeNeeds(m1, p, va + 4096, eva)
    ensures Slots(va, eva) == {PdeIdx(va)} + Slots(va + 4096, eva)
  {
    hide Pde, Present, Slots, Met, PdeIdx, Opened, PageCount;
    PageCountStep(va, eva);
    MetSplit(va, 4096, eva);
    AddressParts(va);
    OpenedAbsent(s.mem, m1, p, {PdeIdx(va)}, Slots(va + 4096, eva));
    OneAbsent(s.mem, p, PdeIdx(va));
  }

  // One more than the first page and its table: the rest needs at least nothing.
  lemma RangeNeedsNat(m: Mem, p: int, va: int, eva: int)
    requires Pid(p) && va <= eva
    ensures 0 <= RangeNeeds(m, p, va, eva)
  {
  }

  lemma FirstRangeNeed(s: Machine, p: int, va: int, eva: int)
    requires UserPid(p) && UserRange(va, eva - va) && va % 4096 == 0 == eva % 4096 && va < eva
    ensures Cost(s, p, va) <= RangeNeeds(s.mem, p, va, eva)
  {
    hide Pde, Present, Slots, Met, PdeIdx, PageCount;
    PageCountStep(va, eva);
    MetSplit(va, 4096, eva);
    AddressParts(va);
    OneAbsent(s.mem, p, PdeIdx(va));
    SubsetSize(Absent(s.mem, p, {PdeIdx(va)}), Absent(s.mem, p, Slots(va, eva)));
  }

  lemma {:induction false} LoadPagesCorrect(s: Machine, p: int, fa: int, va: int, eva: int, zva: u32, filesz: u32,
      perm: int)
    requires CanLoad(s, p, fa, va, eva, zva, filesz) && 0 <= perm < 4096 && perm % 2 == 1 && PmmOk(s.pool.pmm)
    ensures RangeLoaded(s, LoadPages(s, p, fa, va, eva, zva, filesz, perm), p, fa, va, eva, zva, filesz, perm)
    decreases eva - va
  {
    hide Inv, PmmOk, LoadPage, RangeLoaded, PageLoaded, KernelBuffer, FileLen, RangeNeeds, FreePages, Cost;
    if va >= eva {
      LoadNoPage(s, p, fa, va, zva, filesz, perm);
    } else {
      PageCountStep(va, eva);
      var s1 := LoadPage(s, p, fa, va, zva, filesz, perm);
      LoadFirst(s, p, fa, va, eva, zva, filesz, perm);
      InvPmm(s1);
      LoadPagesCorrect(s1, p, fa + 4096, va + 4096, eva, zva, filesz, perm);
      var s2 := LoadPages(s1, p, fa + 4096, va + 4096, eva, zva, filesz, perm);
      RangeJoin(s, s1, s2, p, fa, va, eva, zva, filesz, perm);
    }
  }

  lemma LoadNoPage(s: Machine, p: int, fa: int, va: int, zva: u32, filesz: u32, perm: int)
    requires CanLoad(s, p, fa, va, va, zva, filesz)
    ensures RangeLoaded(s, s, p, fa, va, va, zva, filesz, perm)
  {
    hide Inv, Took, Outside, KernelBuffer, Pde;
    OutsideRefl(s, p, va, va);
    EmptySlots(va);
    assert Absent(s.mem, p, {}) == {};
    TookNothing(s.pool, p);
  }

  lemma LoadFirst(s: Machine, p: int, fa: int, va: int, eva: int, zva: u32, filesz: u32, perm: int)
    requires CanLoad(s, p, fa, va, eva, zva, filesz) && 0 <= perm < 4096 && perm % 2 == 1 && va < eva
    requires PmmOk(s.pool.pmm)
    requires va + 4096 <= eva && (va + 4096) % 4096 == 0
    ensures var s1 := LoadPage(s, p, fa, va, zva, filesz, perm);
      && Inv(s1) && PageLoaded(s, s1, p, fa, va, zva, filesz, perm)
      && CanLoad(s1, p, fa + 4096, va + 4096, eva, zva, filesz)
  {
    hide Inv, PmmOk, LoadPage, KernelBuffer, RangeNeeds, FreePages, Cost, Opened, Outside, Shows, FileLen;
    hide SameBytes, Ledger;
    PrefixBuffer(s, fa, FileLen(va, zva, filesz));
    FirstRangeNeed(s, p, va, eva);
    LoadPageCorrect(s, p, fa, va, zva, filesz, perm);
    var s1 := LoadPage(s, p, fa, va, zva, filesz, perm);
    RangeNeedsStep(s, s1.mem, p, va, eva);
    SourceKept(s, s1, p, va, fa, FileLen(va, zva, filesz));
    NextBuffer(s1, fa, va, zva, filesz);
  }

  lemma PrefixBuffer(s: Machine, fa: int, n: int)
    requires KernelBuffer(s, fa, n)
    ensures KernelBuffer(s, fa, Min(n, 4096))
  {
    hide KernelByte;
  }

  lemma NextBuffer(s: Machine, fa: int, va: int, zva: u32, filesz: u32)
    requires KernelBuffer(s, fa, FileLen(va, zva, filesz)) && 0 <= fa && fa + 4096 <= MEM_SIZE
    ensures KernelBuffer(s, fa + 4096, FileLen(va + 4096, zva, filesz))
  {
    hide KernelByte;
  }

  lemma RangeJoin(s: Machine, s1: Machine, s2: Machine, p: int, fa: int, va: int, eva: int, zva: u32, filesz: u32,
      perm: int)
    requires PagesArgs(p, fa, va, eva, zva, filesz) && PagesArgs(p, fa + 4096, va + 4096, eva, zva, filesz) && va < eva
    requires KernelBuffer(s, fa, FileLen(va, zva, filesz))
    requires PageLoaded(s, s1, p, fa, va, zva, filesz, perm)
    requires RangeLoaded(s1, s2, p, fa + 4096, va + 4096, eva, zva, filesz, perm)
    ensures RangeLoaded(s, s2, p, fa, va, eva, zva, filesz, perm)
  {
    hide Inv, Outside, Shows, KernelBuffer, RangeNeeds, Took, Opened, PageByte, FileLen, SameBytes, Cost, PdeIdx, Slots;
    RangeNeedsStep(s, s1.mem, p, va, eva);
    RangeNeedsNat(s1.mem, p, va + 4096, eva);
    CostNat(s, p, va);
    JoinBytes(s, s1, s2, p, fa, va, eva, zva, filesz, perm);
    TookTrans(s.pool, s1.pool, s2.pool, p, Cost(s, p, va), RangeNeeds(s1.mem, p, va + 4096, eva));
    OpenedTrans(s.mem, s1.mem, s2.mem, p, {PdeIdx(va)}, Slots(va + 4096, eva));
    OutsideTrans(s, s1, s2, p, va, va + 4096, va + 4096, eva, va, eva);
  }

  lemma CostNat(s: Machine, p: int, va: u32)
    requires Pid(p)
    ensures 1 <= Cost(s, p, va)
  {
    hide Pde;
  }

  lemma JoinBytes(s: Machine, s1: Machine, s2: Machine, p: int, fa: int, va: int, eva: int, zva: u32, filesz: u32,
      perm: int)
    requires PagesArgs(p, fa, va, eva, zva, filesz) && va + 4096 <= eva
    requires KernelBuffer(s, fa, FileLen(va, zva, filesz))
    requires PageLoaded(s, s1, p, fa, va, zva, filesz, perm)
    requires RangeLoaded(s1, s2, p, fa + 4096, va + 4096, eva, zva, filesz, perm)
    ensures forall w: u32 :: va <= w < eva ==> Shows(s2.mem, p, w, perm, PageByte(s.mem, fa, va, zva, filesz, w))
  {
    hide Inv, Outside, Shows, KernelBuffer, RangeNeeds, Took, Opened, PageByte, FileLen, SameBytes, Cost, PdeIdx, Slots;
    SourceKept(s, s1, p, va, fa, FileLen(va, zva, filesz));
    forall w: u32 | va <= w < eva
      ensures Shows(s2.mem, p, w, perm, PageByte(s.mem, fa, va, zva, filesz, w))
    {
      if w < va + 4096 {
        ShownKept(s1, s2, p, va + 4096, eva, w, perm, PageByte(s.mem, fa, va, zva, filesz, w));
      } else {
        SameFileByte(s.mem, s1.mem, fa, va, zva, filesz, w);
      }
    }
  }

  lemma ShownKept(s1: Machine, s2: Machine, p: int, lo: int, hi: int, w: u32, perm: int, b: byte)
    requires UserPid(p) && UserVa(w) && !(lo <= w < hi) && Outside(s1, s2, p, lo, hi) && Shows(s1.mem, p, w, perm, b)
    ensures Shows(s2.mem, p, w, perm, b)
  {
    hide Lookup, UserByte, KeepsKernel, MapsOnly;
  }

  lemma SameFileByte(m: Mem, m1: Mem, fa: int, va: int, zva: u32, filesz: u32, w: u32)
    requires 0 <= fa && va + 4096 <= w && fa + (w - va) < MEM_SIZE
    requires SameBytes(m, m1, fa, FileLen(va, zva, filesz))
    ensures PageByte(m1, fa + 4096, va + 4096, zva, filesz, w) == PageByte(m, fa, va, zva, filesz, w)
  {
  }

  // The byte the loader owes to address w of a segment: file bytes up to zva, zeros above.
  function SegmentByte(m: Mem, exe: int, ph: Phdr, w: u32): byte
    requires SegmentOk(ph, exe) && ph.Start() <= w < End(ph)
  {
    SegmentBounds(ph, exe);
    hide RoundDown, RoundUp;
    PageByte(m, exe + RoundDown(ph.offset), ph.Start(), ph.Zva(), ph.filesz, w)
  }

  // In the terms of the program header: p_filesz bytes of the file at p_offset, then zeros up to p_memsz.
  lemma SegmentByteMeans(m: Mem, exe: int, ph: Phdr, i: int)
    requires SegmentOk(ph, exe) && 0 <= i < ph.memsz
    ensures ph.Start() <= ph.va + i < End(ph)
    ensures SegmentByte(m, exe, ph, ph.va + i) == if i < ph.filesz then m[exe + ph.offset + i] else 0
  {
    hide RoundDown, RoundUp;
    SegmentBounds(ph, exe);
  }

  ghost predicate SegmentShown(m: Mem, m': Mem, p: int, exe: int, ph: Phdr)
    requires Pid(p) && SegmentOk(ph, exe)
  {
    forall w: u32 :: ph.Start() <= w < End(ph) ==> Shows(m', p, w, ph.Perm(), SegmentByte(m, exe, ph, w))
  }

  ghost predicate FileSafe(s: Machine, exe: int, ph: Phdr) {
    KernelBuffer(s, exe + RoundDown(ph.offset), FileLen(ph.Start(), ph.Zva(), ph.filesz))
  }

  function Pages(phs: seq<Phdr>): (n: int) {
    if phs == [] then 0 else (if phs[0].Load() then PageCount(phs[0].Start(), End(phs[0])) else 0) + Pages(phs[1..])
  }

  // The directory slots the loadable segments meet, and what loading them takes.
  function SlotsOf(phs: seq<Phdr>): (ds: set<int>) {
    if phs == [] then {} else (if phs[0].Load() then Slots(phs[0].Start(), End(phs[0])) else {}) + SlotsOf(phs[1..])
  }

  ghost function SegmentsNeed(m: Mem, p: int, phs: seq<Phdr>): int
    requires Pid(p)
  { Pages(phs) + |Absent(m, p, SlotsOf(phs))| }

  ghost predicate SegmentDone(s: Machine, s': Machine, p: int, exe: int, ph: Phdr)
    requires Pid(p) && SegmentOk(ph, exe)
  {
    && Inv(s') && Took(s.pool, s'.pool, p, RangeNeeds(s.mem, p, ph.Start(), End(ph)))
    && Opened(s.mem, s'.mem, p, Slots(ph.Start(), End(ph)))
    && Outside(s, s', p, ph.Start(), End(ph)) && SegmentShown(s.mem, s'.mem, p, exe, ph)
  }

  lemma LoadSegmentCorrect(s: Machine, p: int, exe: int, ph: Phdr)
    requires Inv(s) && UserPid(p) && ph.Load() && SegmentOk(ph, exe) && FileSafe(s, exe, ph)
    requires RangeNeeds(s.mem, p, ph.Start(), End(ph)) <= |FreePages(s.pool.pmm)| && PmmOk(s.pool.pmm)
    ensures SegmentDone(s, LoadSegment(s, p, exe, ph), p, exe, ph)
  {
    hide Inv, PmmOk, RoundDown, RoundUp, RangeNeeds, LoadPages, RangeLoaded, KernelBuffer, FileLen;
    hide SegmentDone, FreePages;
    SegmentBounds(ph, exe);
    var fa := exe + RoundDown(ph.offset);
    LoadPagesCorrect(s, p, fa, ph.Start(), End(ph), ph.Zva(), ph.filesz, ph.Perm());
    SegmentFromRange(s, LoadSegment(s, p, exe, ph), p, exe, ph);
  }

  lemma SegmentFromRange(s: Machine, s': Machine, p: int, exe: int, ph: Phdr)
    requires Pid(p) && SegmentOk(ph, exe) && 0 <= exe + RoundDown(ph.offset)
    requires exe + RoundDown(ph.offset) + (End(ph) - ph.Start()) <= VM_USERHI
    requires RangeLoaded(s, s', p, exe + RoundDown(ph.offset), ph.Start(), End(ph), ph.Zva(), ph.filesz, ph.Perm())
    ensures SegmentDone(s, s', p, exe, ph)
  {
    hide Inv, RoundDown, RoundUp, RangeNeeds, Took, Opened, Slots, Outside, Shows, PageByte;
  }

  /* ----- all segments ----- */

  predicate Covers(ph: Phdr, w: int) { ph.Load() && ph.Start() <= w < End(ph) }

  predicate InSegments(phs: seq<Phdr>, w: int) {
    phs != [] && (Covers(phs[0], w) || InSegments(phs[1..], w))
  }

  lemma {:induction false} InSegmentsMeans(phs: seq<Phdr>, w: int)
    ensures InSegments(phs, w) <==> exists k :: 0 <= k < |phs| && Covers(phs[k], w)
  {
    hide Covers;
    if phs != [] {
      InSegmentsMeans(phs[1..], w);
      if k :| 0 <= k < |phs| && Covers(phs[k], w) {
        assert k > 0 ==> phs[1..][k - 1] == phs[k];
      }
      if k :| 0 <= k < |phs| - 1 && Covers(phs[1..][k], w) {
        assert phs[k + 1] == phs[1..][k];
      }
    }
  }

  // Loadable segments share no page.
  predicate PageDisjoint(phs: seq<Phdr>) {
    forall j, k :: 0 <= j < k < |phs| && phs[j].Load() && phs[k].Load() ==>
      End(phs[j]) <= phs[k].Start() || End(phs[k]) <= phs[j].Start()
  }

  // Everything mapped outside the segments of p is kept, and nothing new is mapped there.
  ghost predicate Elsewhere(s: Machine, s': Machine, p: int, phs: seq<Phdr>) {
    && KeepsKernel(s, s')
    && (forall q, vb: u32 :: UserPid(q) && UserVa(vb) && Mapped(s.mem, q, vb) && !(q == p && InSegments(phs, vb)) ==>
         Lookup(s'.mem, q, vb) == Lookup(s.mem, q, vb) && UserByte(s'.mem, q, vb) == UserByte(s.mem, q, vb))
    && (forall q, vb: u32 :: UserPid(q) && UserVa(vb) && !Mapped(s.mem, q, vb) && Mapped(s'.mem, q, vb) ==>
      q == p && InSegments(phs, vb))
  }

  ghost predicate FilesSafe(s: Machine, exe: int, phs: seq<Phdr>) {
    forall k :: 0 <= k < |phs| && phs[k].Load() ==> FileSafe(s, exe, phs[k])
  }

  // A well-formed image for which there are enough free pages.
  ghost predicate CanLoadAll(s: Machine, p: int, exe: int, phs: seq<Phdr>) {
    && Inv(s) && UserPid(p) && SegmentsOk(phs, exe) && PageDisjoint(phs) && FilesSafe(s, exe, phs)
    && SegmentsNeed(s.mem, p, phs) <= |FreePages(s.pool.pmm)|
  }

  ghost predicate AllShown(m: Mem, m': Mem, p: int, exe: int, phs: seq<Phdr>)
    requires Pid(p) && SegmentsOk(phs, exe)
  {
    forall k :: 0 <= k < |phs| && phs[k].Load() ==> SegmentShown(m, m', p, exe, phs[k])
  }

  ghost predicate AllDone(s: Machine, s': Machine, p: int, exe: int, phs: seq<Phdr>)
    requires Pid(p) && SegmentsOk(phs, exe)
  {
    && Inv(s') && Took(s.pool, s'.pool, p, SegmentsNeed(s.mem, p, phs)) && Opened(s.mem, s'.mem, p, SlotsOf(phs))
    && Elsewhere(s, s', p, phs) && AllShown(s.mem, s'.mem, p, exe, phs)
  }

  lemma {:induction false} LoadSegmentsCorrect(s: Machine, p: int, exe: int, phs: seq<Phdr>)
    requires CanLoadAll(s, p, exe, phs) && PmmOk(s.pool.pmm)
    ensures AllDone(s, LoadSegments(s, p, exe, phs), p, exe, phs)
    decreases |phs|
  {
    hide Inv, PmmOk, LoadSegment, AllDone, OneDone, SegmentOk, SegmentsNeed, FreePages, PageDisjoint, FilesSafe;
    if phs == [] {
      LoadNone(s, p, exe);
    } else {
      var s1 := LoadSegment(s, p, exe, phs[0]);
      LoadOne(s, p, exe, phs);
      InvPmm(s1);
      LoadSegmentsCorrect(s1, p, exe, phs[1..]);
      SegmentsJoin(s, s1, LoadSegments(s1, p, exe, phs[1..]), p, exe, phs);
    }
  }

  lemma {:induction false} LoadNone(s: Machine, p: int, exe: int)
    requires Inv(s) && UserPid(p)
    ensures AllDone(s, s, p, exe, [])
  {
    hide Inv, Took, Lookup, UserByte, KernelByte, Pde;
    TookNothing(s.pool, p);
    assert Absent(s.mem, p, {}) == {};
  }

  ghost predicate OneDone(s: Machine, s': Machine, p: int, exe: int, ph: Phdr)
    requires Pid(p) && (ph.Load() ==> SegmentOk(ph, exe))
  {
    if ph.Load() then SegmentDone(s, s', p, exe, ph) else s' == s
  }

  // What the first header asks for.
  ghost function OneNeeds(m: Mem, p: int, ph: Phdr): int
    requires Pid(p)
  { if ph.Load() then RangeNeeds(m, p, ph.Start(), End(ph)) else 0 }

  function OneSlots(ph: Phdr): set<int> { if ph.Load() then Slots(ph.Start(), End(ph)) else {} }

  lemma {:induction false} SegmentsNeedStep(m: Mem, m1: Mem, p: int, phs: seq<Phdr>)
    requires Pid(p) && phs != [] && Opened(m, m1, p, OneSlots(phs[0]))
    ensures SegmentsNeed(m, p, phs) == OneNeeds(m, p, phs[0]) + SegmentsNeed(m1, p, phs[1..])
    ensures SlotsOf(phs) == OneSlots(phs[0]) + SlotsOf(phs[1..])
  {
    hide Slots, PageCount, RoundDown, RoundUp, Pde, Opened;
    OpenedAbsent(m, m1, p, OneSlots(phs[0]), SlotsOf(phs[1..]));
    assert Absent(m, p, {}) == {};
  }

  lemma {:induction false} FirstSegmentNeed(m: Mem, p: int, exe: int, phs: seq<Phdr>)
    requires Pid(p) && phs != [] && SegmentsOk(phs, exe)
    ensures OneNeeds(m, p, phs[0]) <= SegmentsNeed(m, p, phs)
  {
    hide Slots, PageCount, RoundDown, RoundUp, Pde, SegmentOk;
    PagesNat(phs[1..], exe);
    SubsetSize(Absent(m, p, OneSlots(phs[0])), Absent(m, p, SlotsOf(phs)));
  }

  lemma LoadOne(s: Machine, p: int, exe: int, phs: seq<Phdr>)
    requires CanLoadAll(s, p, exe, phs) && PmmOk(s.pool.pmm) && phs != []
    ensures var s1 := LoadSegment(s, p, exe, phs[0]);
      Inv(s1) && OneDone(s, s1, p, exe, phs[0]) && CanLoadAll(s1, p, exe, phs[1..])
  {
    hide Inv, PmmOk, RoundDown, RoundUp, RangeNeeds, SegmentsNeed, FilesSafe, SegmentOk, SegmentDone;
    hide LoadPages, FreePages, Slots;
    FirstSegmentNeed(s.mem, p, exe, phs);
    assert phs[0].Load() ==> FileSafe(s, exe, phs[0]) by { FirstFile(s, exe, phs); }
    if phs[0].Load() {
      LoadSegmentCorrect(s, p, exe, phs[0]);
    }
    NextSegments(s, LoadSegment(s, p, exe, phs[0]), p, exe, phs);
  }

  lemma FirstFile(s: Machine, exe: int, phs: seq<Phdr>)
    requires FilesSafe(s, exe, phs) && phs != []
    ensures phs[0].Load() ==> FileSafe(s, exe, phs[0])
  {
  }

  // A segment loaded or a header skipped, in one form.
  lemma OneFacts(s: Machine, s1: Machine, p: int, exe: int, ph: Phdr)
    requires Inv(s) && Pid(p) && (ph.Load() ==> SegmentOk(ph, exe)) && OneDone(s, s1, p, exe, ph)
    ensures Inv(s1) && Took(s.pool, s1.pool, p, OneNeeds(s.mem, p, ph))
    ensures Opened(s.mem, s1.mem, p, OneSlots(ph)) && KeepsKernel(s, s1)
  {
    hide Inv, Took, Outside, SegmentShown, RangeNeeds, Slots, Pde, SegmentOk, KeepsKernel, RoundDown, RoundUp;
    if ph.Load() {
      OutsideKernel(s, s1, p, ph.Start(), End(ph));
    } else {
      TookNothing(s.pool, p);
      KernelRefl(s);
    }
  }

  lemma {:induction false} PagesNat(phs: seq<Phdr>, exe: int)
    requires SegmentsOk(phs, exe)
    ensures 0 <= Pages(phs)
  {
    hide PageCount, SegmentOk, RoundDown, RoundUp;
    if phs != [] {
      PagesNat(phs[1..], exe);
      if phs[0].Load() {
        CountNat(phs[0], exe);
      }
    }
  }

  lemma CountNat(ph: Phdr, exe: int)
    requires SegmentOk(ph, exe)
    ensures 0 <= PageCount(ph.Start(), End(ph))
  {
    hide RoundDown, RoundUp;
    SegmentBounds(ph, exe);
  }

  lemma NextSegments(s: Machine, s1: Machine, p: int, exe: int, phs: seq<Phdr>)
    requires CanLoadAll(s, p, exe, phs) && phs != [] && OneDone(s, s1, p, exe, phs[0])
    ensures Inv(s1) && CanLoadAll(s1, p, exe, phs[1..])
  {
    hide Inv, OneDone, SegmentsNeed, OneNeeds, OneSlots, FilesSafe, SegmentOk, FreePages, KeepsKernel, Opened, Ledger;
    OneFacts(s, s1, p, exe, phs[0]);
    SegmentsNeedStep(s.mem, s1.mem, p, phs);
    FilesStay(s, s1, exe, phs);
    TailDisjoint(phs);
  }

  lemma TailDisjoint(phs: seq<Phdr>)
    requires PageDisjoint(phs) && phs != []
    ensures PageDisjoint(phs[1..])
  {
    hide RoundDown, RoundUp;
  }

  lemma KernelRefl(s: Machine)
    ensures KeepsKernel(s, s)
  {
  }

  lemma FilesStay(s: Machine, s1: Machine, exe: int, phs: seq<Phdr>)
    requires FilesSafe(s, exe, phs) && KeepsKernel(s, s1) && phs != []
    ensures FilesSafe(s1, exe, phs[1..])
    ensures forall k :: 0 <= k < |phs| && phs[k].Load() ==> SameFile(s.mem, s1.mem, exe, phs[k])
  {
    hide KernelByte, RoundDown, FileLen, KeepsKernel, KernelBuffer, SameBytes;
    forall k | 0 <= k < |phs| && phs[k].Load()
      ensures FileSafe(s1, exe, phs[k]) && SameFile(s.mem, s1.mem, exe, phs[k])
    {
      SafeSame(s, s1, exe + RoundDown(phs[k].offset), FileLen(phs[k].Start(), phs[k].Zva(), phs[k].filesz));
    }
  }

  predicate SameFile(m: Mem, m1: Mem, exe: int, ph: Phdr) {
    SameBytes(m, m1, exe + RoundDown(ph.offset), FileLen(ph.Start(), ph.Zva(), ph.filesz))
  }

  lemma SafeSame(s: Machine, s1: Machine, a: int, n: int)
    requires KernelBuffer(s, a, n) && KeepsKernel(s, s1)
    ensures KernelBuffer(s1, a, n) && SameBytes(s.mem, s1.mem, a, n)
  {
    hide KernelByte, KeepsKernel;
    StillSafe(s, s1, a, n);
  }

  lemma SegmentsJoin(s: Machine, s1: Machine, s2: Machine, p: int, exe: int, phs: seq<Phdr>)
    requires CanLoadAll(s, p, exe, phs) && phs != []
    requires OneDone(s, s1, p, exe, phs[0]) && AllDone(s1, s2, p, exe, phs[1..])
    ensures AllDone(s, s2, p, exe, phs)
  {
    hide Inv, OneDone, SegmentsNeed, OneNeeds, SlotsOf, OneSlots, SegmentOk, Elsewhere, AllShown, Took;
    hide Opened, FilesSafe, FreePages, KeepsKernel;
    OneFacts(s, s1, p, exe, phs[0]);
    SegmentsNeedStep(s.mem, s1.mem, p, phs);
    NeedNats(s.mem, s1.mem, p, exe, phs);
    TookTrans(s.pool, s1.pool, s2.pool, p, OneNeeds(s.mem, p, phs[0]), SegmentsNeed(s1.mem, p, phs[1..]));
    OpenedTrans(s.mem, s1.mem, s2.mem, p, OneSlots(phs[0]), SlotsOf(phs[1..]));
    JoinElsewhere(s, s1, s2, p, exe, phs);
    JoinShown(s, s1, s2, p, exe, phs);
  }

  lemma {:induction false} NeedNats(m: Mem, m1: Mem, p: int, exe: int, phs: seq<Phdr>)
    requires Pid(p) && phs != [] && SegmentsOk(phs, exe)
    ensures 0 <= OneNeeds(m, p, phs[0]) && 0 <= SegmentsNeed(m1, p, phs[1..])
  {
    hide Slots, PageCount, RoundDown, RoundUp, Pde, SegmentOk;
    PagesNat(phs[1..], exe);
    if phs[0].Load() {
      CountNat(phs[0], exe);
    }
  }

  lemma JoinElsewhere(s: Machine, s1: Machine, s2: Machine, p: int, exe: int, phs: seq<Phdr>)
    requires Pid(p) && SegmentsOk(phs, exe) && phs != []
    requires OneDone(s, s1, p, exe, phs[0]) && Elsewhere(s1, s2, p, phs[1..])
    ensures Elsewhere(s, s2, p, phs)
  {
    hide Inv, RoundDown, RoundUp, RangeNeeds, SegmentOk, SegmentShown, Lookup, UserByte, KernelByte, Took;
    hide Opened, Slots, Outside;
    if phs[0].Load() {
      OneElsewhere(s, s1, p, exe, phs[0]);
      forall q, vb: u32 | UserPid(q) && UserVa(vb) && !(q == p && InSegments(phs, vb))
        ensures Mapped(s2.mem, q, vb) ==> Mapped(s.mem, q, vb)
        ensures Mapped(s.mem, q, vb) ==>
          Lookup(s2.mem, q, vb) == Lookup(s.mem, q, vb) && UserByte(s2.mem, q, vb) == UserByte(s.mem, q, vb)
      {
        assert Mapped(s1.mem, q, vb) <==> Mapped(s.mem, q, vb);
      }
      KernelTrans(s, s1, s2);
    }
  }

  lemma KernelTrans(s: Machine, s1: Machine, s2: Machine)
    requires KeepsKernel(s, s1) && KeepsKernel(s1, s2)
    ensures KeepsKernel(s, s2)
  {
    hide StaticByte;
    forall a | KernelByte(s, a)
      ensures s2.mem[a] == s.mem[a]
    {
      assert Page(a / 4096) && KernelByte(s1, a);
    }
  }

  lemma OneElsewhere(s: Machine, s1: Machine, p: int, exe: int, ph: Phdr)
    requires SegmentOk(ph, exe) && Outside(s, s1, p, ph.Start(), End(ph)) && ph.Load()
    ensures KeepsKernel(s, s1)
    ensures forall q, vb: u32 :: UserPid(q) && UserVa(vb) && Mapped(s.mem, q, vb) && !(q == p && Covers(ph, vb)) ==>
      Lookup(s1.mem, q, vb) == Lookup(s.mem, q, vb) && UserByte(s1.mem, q, vb) == UserByte(s.mem, q, vb)
    ensures forall q, vb: u32 :: UserPid(q) && UserVa(vb) && !Mapped(s.mem, q, vb) && Mapped(s1.mem, q, vb) ==>
      q == p && Covers(ph, vb)
  {
    hide RoundDown, RoundUp, Lookup, UserByte, KernelByte;
    SegmentBounds(ph, exe);
    forall q, vb: u32 | UserPid(q) && UserVa(vb) && !Mapped(s.mem, q, vb) && Mapped(s1.mem, q, vb)
      ensures q == p && Covers(ph, vb)
    {
      WholePages(ph.Start(), End(ph), vb);
    }
  }

  lemma WholePages(lo: int, hi: int, vb: u32)
    requires lo % 4096 == 0 == hi % 4096
    ensures lo / 4096 * 4096 <= vb && vb / 4096 * 4096 < hi ==> lo <= vb < hi
  {
  }

  lemma JoinShown(s: Machine, s1: Machine, s2: Machine, p: int, exe: int, phs: seq<Phdr>)
    requires UserPid(p) && SegmentsOk(phs, exe) && phs != [] && PageDisjoint(phs) && FilesSafe(s, exe, phs)
    requires OneDone(s, s1, p, exe, phs[0])
    requires Elsewhere(s1, s2, p, phs[1..]) && AllShown(s1.mem, s2.mem, p, exe, phs[1..])
    ensures AllShown(s.mem, s2.mem, p, exe, phs)
  {
    hide Inv, RoundDown, RoundUp, RangeNeeds, SegmentOk, SegmentShown, Elsewhere, Took, Opened, Slots;
    hide Outside, SameFile, KeepsKernel, FileSafe, FilesSafe, KernelBuffer;
    if phs[0].Load() {
      OutsideKernel(s, s1, p, phs[0].Start(), End(phs[0]));
    } else {
      KernelRefl(s);
    }
    FilesStay(s, s1, exe, phs);
    forall k | 0 <= k < |phs| && phs[k].Load()
      ensures SegmentShown(s.mem, s2.mem, p, exe, phs[k])
    {
      if k == 0 {
        FirstShown(s, s1, s2, p, exe, phs);
      } else {
        assert phs[1..][k - 1] == phs[k];
        ShownFrom(s.mem, s1.mem, s2.mem, p, exe, phs[k]);
      }
    }
  }

  // The first segment survives the loading of the others.
  lemma FirstShown(s: Machine, s1: Machine, s2: Machine, p: int, exe: int, phs: seq<Phdr>)
    requires UserPid(p) && SegmentsOk(phs, exe) && phs != [] && PageDisjoint(phs) && phs[0].Load()
    requires SegmentShown(s.mem, s1.mem, p, exe, phs[0]) && Elsewhere(s1, s2, p, phs[1..])
    ensures SegmentShown(s.mem, s2.mem, p, exe, phs[0])
  {
    hide RoundDown, RoundUp, SegmentByte, Lookup, UserByte, KeepsKernel, InSegments;
    SegmentBounds(phs[0], exe);
    forall w: u32 | phs[0].Start() <= w < End(phs[0])
      ensures Shows(s2.mem, p, w, phs[0].Perm(), SegmentByte(s.mem, exe, phs[0], w))
    {
      assert Shows(s1.mem, p, w, phs[0].Perm(), SegmentByte(s.mem, exe, phs[0], w));
      NotCovered(phs, w);
    }
  }

  lemma {:induction false} NotCovered(phs: seq<Phdr>, w: int)
    requires phs != [] && PageDisjoint(phs) && Covers(phs[0], w)
    ensures !InSegments(phs[1..], w)
  {
    hide RoundDown, RoundUp, InSegments;
    InSegmentsMeans(phs[1..], w);
  }

  lemma ShownFrom(m: Mem, m1: Mem, m2: Mem, p: int, exe: int, ph: Phdr)
    requires UserPid(p) && SegmentOk(ph, exe) && SameFile(m, m1, exe, ph) && SegmentShown(m1, m2, p, exe, ph)
    ensures SegmentShown(m, m2, p, exe, ph)
  {
    hide RoundDown, RoundUp, Shows;
    SegmentBounds(ph, exe);
    forall w: u32 | ph.Start() <= w < End(ph)
      ensures Shows(m2, p, w, ph.Perm(), SegmentByte(m, exe, ph, w))
    {
      assert SegmentByte(m1, exe, ph, w) == SegmentByte(m, exe, ph, w);
    }
  }

  /* ----- elf_load ----- */

  // What user address w holds in the end: the dynamic linkage page lies over whatever was loaded there.
  predicate Linked(w: int) { VM_DYNLINK <= w < VM_DYNLINK + DLL_SIZE }

  // What elf_load takes: a page for each page of each segment, a page for the linkage page unless it is
  // mapped or loaded, and the tables that are missing.
  ghost function ElfNeeds(m: Mem, p: int, phs: seq<Phdr>): int
    requires Pid(p)
  {
    Pages(phs) + (if Mapped(m, p, VM_DYNLINK) || InSegments(phs, VM_DYNLINK) then 0 else 1)
    + |Absent(m, p, SlotsOf(phs) + {PdeIdx(VM_DYNLINK)})|
  }

  // A well-formed image in kernel memory proper: segments in the user range that share no page.
  ghost predicate ImageOk(s: Machine, p: int, exe: int, phs: seq<Phdr>, dll: u32) {
    && Inv(s) && UserPid(p) && SegmentsOk(phs, exe) && PageDisjoint(phs) && FilesSafe(s, exe, phs)
    && KernelBuffer(s, dll, DLL_SIZE) && dll + DLL_SIZE <= VM_USERLO
  }

  // What the file says address w of a segment holds: a byte of the file, or zero behind them.
  function FileByte(m: Mem, exe: int, ph: Phdr, w: u32): byte
    requires SegmentOk(ph, exe) && ph.va <= w < ph.va + ph.memsz
  { if w - ph.va < ph.filesz then m[exe + ph.offset + (w - ph.va)] else 0 }

  // Address w of a segment: the file's byte, writable exactly when the segment is.
  predicate Image(m: Mem, m': Mem, p: int, exe: int, ph: Phdr, w: u32)
    requires Pid(p) && SegmentOk(ph, exe) && ph.va <= w < ph.va + ph.memsz
  {
    && Mmu(m', p, w) == Hit(Phys(m', p, w), ph.flags / 2 % 2 == 1, true, false)
    && (!Linked(w) ==> UserByte(m', p, w) == FileByte(m, exe, ph, w))
  }

  ghost predicate ImageLoaded(m: Mem, m': Mem, p: int, exe: int, ph: Phdr)
    requires Pid(p) && SegmentOk(ph, exe)
  {
    forall w: u32 :: ph.va <= w < ph.va + ph.memsz ==> Image(m, m', p, exe, ph, w)
  }

  ghost predicate LinkPage(m: Mem, m': Mem, p: int, dll: u32)
    requires Pid(p) && dll + DLL_SIZE <= VM_USERLO
  {
    forall w: u32 :: Linked(w) ==> Mapped(m', p, w) && UserByte(m', p, w) == m[dll + (w - VM_DYNLINK)]
  }

  // The linkage page is writable for the user if it was not mapped, and as it was if it was; a segment there
  // decides itself.
  ghost predicate LinkFlags(m: Mem, m': Mem, p: int, phs: seq<Phdr>)
    requires Pid(p)
  {
    forall w: u32 :: Linked(w) && !InSegments(phs, w) ==>
      Mmu(m', p, w) == if Mapped(m, p, w) then Mmu(m, p, w) else Hit(Phys(m', p, w), true, true, false)
  }

  // Pages that belong neither to a segment nor to the linkage page, and every page of another process.
  ghost predicate Untouched(s: Machine, s': Machine, p: int, phs: seq<Phdr>) {
    forall q, vb: u32 :: UserPid(q) && UserVa(vb) && !(q == p && (InSegments(phs, vb) || Linked(vb))) ==>
      && (Mapped(s'.mem, q, vb) <==> Mapped(s.mem, q, vb))
      && (Mapped(s.mem, q, vb) ==>
           Lookup(s'.mem, q, vb) == Lookup(s.mem, q, vb) && UserByte(s'.mem, q, vb) == UserByte(s.mem, q, vb))
  }

  // The linkage page asks for one page unless it is mapped, and for its table unless that is there.
  lemma LinkNeeds(m: Mem, p: int)
    requires UserPid(p)
    ensures Needs(m, p, VM_DYNLINK, DLL_SIZE) == PageNeeds(m, p, VM_DYNLINK)
    ensures Slots(VM_DYNLINK, VM_DYNLINK + DLL_SIZE) == {PdeIdx(VM_DYNLINK)}
  {
    hide Mapped, Pde, Present, Opened, Met, Slots, PdeIdx;
    AddressParts(VM_DYNLINK);
    OneSlot(VM_DYNLINK, DLL_SIZE);
    MetSplit(VM_DYNLINK, DLL_SIZE, VM_DYNLINK + DLL_SIZE);
    NoNeeds(m, p, VM_DYNLINK + DLL_SIZE);
    OneAbsent(m, p, PdeIdx(VM_DYNLINK));
    SamePageMapped(m, p, VM_DYNLINK);
    var v := VM_DYNLINK / 4096;
    assert Met(VM_DYNLINK, VM_DYNLINK + DLL_SIZE) == {v} by { MetNothing(VM_DYNLINK + DLL_SIZE); }
    assert Unmapped(m, p, {v}) == if Mapped(m, p, VM_DYNLINK) then {} else {v};
  }

  lemma MetNothing(a: int)
    ensures Met(a, a) == {}
  {
  }

  // What is left to take after the segments is what the linkage page needs.
  lemma {:induction false} LinkShare(s: Machine, s1: Machine, p: int, exe: int, phs: seq<Phdr>)
    requires UserPid(p) && SegmentsOk(phs, exe) && Opened(s.mem, s1.mem, p, SlotsOf(phs))
    requires Elsewhere(s, s1, p, phs) && AllShown(s.mem, s1.mem, p, exe, phs)
    ensures ElfNeeds(s.mem, p, phs) == SegmentsNeed(s.mem, p, phs) + Needs(s1.mem, p, VM_DYNLINK, DLL_SIZE)
  {
    hide Pde, Present, Opened, Slots, PdeIdx, SegmentOk, Lookup, UserByte, KeepsKernel, SlotsOf, InSegments;
    hide AllShown, Pages, Needs;
    AddressParts(VM_DYNLINK);
    LinkNeeds(s1.mem, p);
    OpenedAbsent(s.mem, s1.mem, p, SlotsOf(phs), {PdeIdx(VM_DYNLINK)});
    OneAbsent(s1.mem, p, PdeIdx(VM_DYNLINK));
    if InSegments(phs, VM_DYNLINK) {
      ShownMapped(s.mem, s1.mem, p, exe, phs, VM_DYNLINK);
    }
  }

  lemma {:induction false} ShownMapped(m: Mem, m': Mem, p: int, exe: int, phs: seq<Phdr>, w: u32)
    requires Pid(p) && SegmentsOk(phs, exe) && AllShown(m, m', p, exe, phs) && InSegments(phs, w)
    ensures Mapped(m', p, w)
  {
    hide SegmentOk, RoundDown, RoundUp, SegmentByte, Lookup, UserByte, InSegments;
    InSegmentsMeans(phs, w);
    var k :| 0 <= k < |phs| && Covers(phs[k], w);
    assert SegmentShown(m, m', p, exe, phs[k]);
    assert Shows(m', p, w, phs[k].Perm(), SegmentByte(m, exe, phs[k], w));
  }

  // The last copy of elf_load writes the linkage page.
  lemma LinkCopy(s: Machine, s1: Machine, p: int, exe: int, phs: seq<Phdr>, dll: u32)
    requires ImageOk(s, p, exe, phs, dll) && ElfNeeds(s.mem, p, phs) <= |FreePages(s.pool.pmm)|
    requires AllDone(s, s1, p, exe, phs) && PmmOk(s1.pool.pmm)
    ensures var s2 := PtCopyout(s1, dll, p, VM_DYNLINK, DLL_SIZE).0;
      && Inv(s2) && Took(s.pool, s2.pool, p, ElfNeeds(s.mem, p, phs))
      && Written(s1, s2, p, VM_DYNLINK, DLL_SIZE, Kernel(dll), Needs(s1.mem, p, VM_DYNLINK, DLL_SIZE))
      && SameBytes(s.mem, s1.mem, dll, DLL_SIZE)
  {
    hide Inv, PmmOk, SegmentOk, FilesSafe, AllShown, KernelBuffer, SameBytes, WriteUser, Confined, Holds;
    hide KeepsKernel, Needs, ElfNeeds, SegmentsNeed, Opened, Ledger, FreePages, SlotsOf, Elsewhere;
    LinkShare(s, s1, p, exe, phs);
    ElsewhereKernel(s, s1, p, phs);
    SafeSame(s, s1, dll, DLL_SIZE);
    WriteUserCorrect(s1, p, VM_DYNLINK, DLL_SIZE, Kernel(dll));
    SegmentsNat(s.mem, p, exe, phs);
    var s2 := PtCopyout(s1, dll, p, VM_DYNLINK, DLL_SIZE).0;
    TookTrans(s.pool, s1.pool, s2.pool, p, SegmentsNeed(s.mem, p, phs), Needs(s1.mem, p, VM_DYNLINK, DLL_SIZE));
  }

  lemma ElsewhereKernel(s: Machine, s1: Machine, p: int, phs: seq<Phdr>)
    requires Elsewhere(s, s1, p, phs)
    ensures KeepsKernel(s, s1)
  {
  }

  lemma SegmentsNat(m: Mem, p: int, exe: int, phs: seq<Phdr>)
    requires Pid(p) && SegmentsOk(phs, exe)
    ensures 0 <= SegmentsNeed(m, p, phs)
  {
    hide SegmentOk, SlotsOf, Pages;
    PagesNat(phs, exe);
  }

  lemma LinkDone(s: Machine, s1: Machine, s2: Machine, p: int, dll: u32, cost: int)
    requires UserPid(p) && dll + DLL_SIZE <= VM_USERLO && SameBytes(s.mem, s1.mem, dll, DLL_SIZE)
    requires Written(s1, s2, p, VM_DYNLINK, DLL_SIZE, Kernel(dll), cost)
    ensures LinkPage(s.mem, s2.mem, p, dll)
  {
    hide Inv, Took, Opened, Confined, Mapped, UserByte;
  }

  lemma LinkTranslations(s: Machine, s1: Machine, s2: Machine, p: int, exe: int, phs: seq<Phdr>, dll: u32)
    requires Inv(s) && UserPid(p) && SegmentsOk(phs, exe) && AllDone(s, s1, p, exe, phs) && dll + DLL_SIZE <= VM_USERLO
    requires Inv(s2) && Confined(s1, s2, p, VM_DYNLINK, VM_DYNLINK + DLL_SIZE) && LinkPage(s.mem, s2.mem, p, dll)
    ensures LinkFlags(s.mem, s2.mem, p, phs)
  {
    hide Inv, Took, Opened, AllShown, SegmentOk, Confined, Mmu, Mapped, InSegments, UserByte, KeepsKernel, Elsewhere;
    hide SlotsOf;
    forall w: u32 | Linked(w) && !InSegments(phs, w)
      ensures Mmu(s2.mem, p, w)
        == if Mapped(s.mem, p, w) then Mmu(s.mem, p, w) else Hit(Phys(s2.mem, p, w), true, true, false)
    {
      ElsewhereTranslation(s, s1, p, phs, w);
      ConfinedTranslation(s1, s2, p, VM_DYNLINK, VM_DYNLINK + DLL_SIZE, w);
    }
  }

  lemma {:induction false} ElsewhereTranslation(s: Machine, s1: Machine, p: int, phs: seq<Phdr>, w: u32)
    requires Inv(s) && Inv(s1) && UserPid(p) && UserVa(w) && Elsewhere(s, s1, p, phs) && !InSegments(phs, w)
    ensures Mmu(s1.mem, p, w) == Mmu(s.mem, p, w) && (Mapped(s1.mem, p, w) <==> Mapped(s.mem, p, w))
  {
    hide Inv, Lookup, UserByte, KeepsKernel, InSegments, Mmu, UserDirs;
    DirsOk(s);
    DirsOk(s1);
    UserTranslation(s.mem, p, w);
    UserTranslation(s1.mem, p, w);
  }

  lemma ConfinedTranslation(s: Machine, s': Machine, p: int, lo: int, hi: int, w: u32)
    requires Inv(s) && Inv(s') && UserPid(p) && UserVa(w) && Confined(s, s', p, lo, hi)
    ensures Mapped(s.mem, p, w) ==> Mmu(s'.mem, p, w) == Mmu(s.mem, p, w)
    ensures !Mapped(s.mem, p, w) && Mapped(s'.mem, p, w) ==>
      Mmu(s'.mem, p, w) == Hit(Phys(s'.mem, p, w), true, true, false)
  {
    hide Inv, KeepsLookups, KeepsBytes, MapsOnly, NewFlags, KeepsKernel, Mmu, Mapped;
    NewTranslation(s, s', p, w);
  }

  // A shown byte keeps its flags under the last copy, and its value unless the copy covers it.
  lemma ByteDone(s1: Machine, s2: Machine, p: int, w: u32, perm: int, b: byte)
    requires UserPid(p) && UserVa(w) && Shows(s1.mem, p, w, perm, b) && Inv(s2) && (perm == 5 || perm == 7)
    requires Confined(s1, s2, p, VM_DYNLINK, VM_DYNLINK + DLL_SIZE)
    ensures Mmu(s2.mem, p, w) == Hit(Phys(s2.mem, p, w), perm == 7, true, false)
    ensures !Linked(w) ==> UserByte(s2.mem, p, w) == b
  {
    hide Inv, Lookup, Phys, UserByte, UserDirs, Mmu, KeepsKernel, MapsOnly;
    var e := Lookup(s1.mem, p, w);
    DirsOk(s2);
    UserTranslation(s2.mem, p, w);
    FlagBits(e, e / 4096, perm);
  }

  lemma DirsOk(s: Machine)
    requires Inv(s)
    ensures UserDirs(s.mem)
  {
  }

  lemma ImageDone(s: Machine, s1: Machine, s2: Machine, p: int, exe: int, ph: Phdr)
    requires UserPid(p) && SegmentOk(ph, exe) && SegmentShown(s.mem, s1.mem, p, exe, ph) && Inv(s2)
    requires Confined(s1, s2, p, VM_DYNLINK, VM_DYNLINK + DLL_SIZE)
    ensures ImageLoaded(s.mem, s2.mem, p, exe, ph)
  {
    hide Inv, Confined, RoundDown, RoundUp, Mmu, Phys, UserByte, Shows, SegmentByte;
    SegmentBounds(ph, exe);
    forall w: u32 | ph.va <= w < ph.va + ph.memsz
      ensures Image(s.mem, s2.mem, p, exe, ph, w)
    {
      SegmentByteMeans(s.mem, exe, ph, w - ph.va);
      ByteDone(s1, s2, p, w, ph.Perm(), SegmentByte(s.mem, exe, ph, w));
    }
  }

  lemma UntouchedDone(s: Machine, s1: Machine, s2: Machine, p: int, phs: seq<Phdr>)
    requires Elsewhere(s, s1, p, phs) && Confined(s1, s2, p, VM_DYNLINK, VM_DYNLINK + DLL_SIZE)
    ensures Untouched(s, s2, p, phs)
  {
    hide Lookup, UserByte, InSegments, KeepsKernel, Linked;
    forall q, vb: u32 | UserPid(q) && UserVa(vb) && !(q == p && (InSegments(phs, vb) || Linked(vb)))
      ensures Mapped(s2.mem, q, vb) <==> Mapped(s.mem, q, vb)
      ensures Mapped(s.mem, q, vb) ==>
        Lookup(s2.mem, q, vb) == Lookup(s.mem, q, vb) && UserByte(s2.mem, q, vb) == UserByte(s.mem, q, vb)
    {
      LinkedPage(vb);
      assert Mapped(s1.mem, q, vb) <==> Mapped(s.mem, q, vb);
    }
  }

  lemma LinkedPage(vb: u32)
    ensures Linked(vb) <==> VM_DYNLINK <= vb < VM_DYNLINK + DLL_SIZE
    ensures Linked(vb) <==> VM_DYNLINK / 4096 * 4096 <= vb && vb / 4096 * 4096 < VM_DYNLINK + DLL_SIZE
  {
    WholePages(VM_DYNLINK, VM_DYNLINK + DLL_SIZE, vb);
  }

  // Loading is correct for all segments at once: bytes of the file, zeros behind them, write permission
  // exactly for writable segments, nothing else disturbed, and exactly the missing pages and tables taken.
  lemma ElfLoadCorrect(s: Machine, p: int, exe: int, phs: seq<Phdr>, dll: u32)
    requires ImageOk(s, p, exe, phs, dll) && ElfNeeds(s.mem, p, phs) <= |FreePages(s.pool.pmm)| && PmmOk(s.pool.pmm)
    ensures var s' := ElfLoad(s, p, exe, phs, dll);
      && Inv(s') && Took(s.pool, s'.pool, p, ElfNeeds(s.mem, p, phs))
      && (forall k :: 0 <= k < |phs| && phs[k].Load() ==> ImageLoaded(s.mem, s'.mem, p, exe, phs[k]))
      && LinkPage(s.mem, s'.mem, p, dll) && LinkFlags(s.mem, s'.mem, p, phs)
      && Untouched(s, s', p, phs)
  {
    hide Inv, PmmOk, LoadSegments, KernelBuffer, SegmentOk, SegmentShown, ImageLoaded, Untouched, LinkPage;
    hide Took, Opened;
    hide PtCopyout, Confined, Elsewhere, Holds, SameBytes, Needs, ElfNeeds, SegmentsNeed, FilesSafe;
    hide FreePages, PageDisjoint, SlotsOf;
    SegmentsFit(s, p, exe, phs);
    LoadSegmentsCorrect(s, p, exe, phs);
    var s1 := LoadSegments(s, p, exe, phs);
    var s2 := ElfLoad(s, p, exe, phs, dll);
    LinkCopy(s, s1, p, exe, phs, dll);
    LinkDone(s, s1, s2, p, dll, Needs(s1.mem, p, VM_DYNLINK, DLL_SIZE));
    LinkTranslations(s, s1, s2, p, exe, phs, dll);
    UntouchedDone(s, s1, s2, p, phs);
    forall k | 0 <= k < |phs| && phs[k].Load()
      ensures ImageLoaded(s.mem, s2.mem, p, exe, phs[k])
    {
      ImageDone(s, s1, s2, p, exe, phs[k]);
    }
  }

  lemma SegmentsFit(s: Machine, p: int, exe: int, phs: seq<Phdr>)
    requires Pid(p)
    ensures SegmentsNeed(s.mem, p, phs) <= ElfNeeds(s.mem, p, phs)
  {
    hide Mapped, Pde, SlotsOf, Pages, InSegments;
    SubsetSize(Absent(s.mem, p, SlotsOf(phs)), Absent(s.mem, p, SlotsOf(phs) + {PdeIdx(VM_DYNLINK)}));
  }

  // The loader does not keep segments away from the linkage page. A byte of a segment reads back as the file
  // has it if and only if the linkage page does not cover it, or happens to hold the same byte there.
  lemma ReadsBackIff(s: Machine, p: int, exe: int, phs: seq<Phdr>, dll: u32, k: int, w: u32)
    requires ImageOk(s, p, exe, phs, dll) && ElfNeeds(s.mem, p, phs) <= |FreePages(s.pool.pmm)| && PmmOk(s.pool.pmm)
    requires 0 <= k < |phs| && phs[k].Load() && phs[k].va <= w < phs[k].va + phs[k].memsz
    ensures UserByte(ElfLoad(s, p, exe, phs, dll).mem, p, w) == FileByte(s.mem, exe, phs[k], w)
      <==> !Linked(w) || s.mem[dll + (w - VM_DYNLINK)] == FileByte(s.mem, exe, phs[k], w)
  {
    hide Inv, PmmOk, ElfLoad, FreePages, ElfNeeds, Took, Untouched, FilesSafe, PageDisjoint, KernelBuffer;
    hide SegmentOk, FileByte, UserByte, Mmu, Mapped;
    ElfLoadCorrect(s, p, exe, phs, dll);
    var m' := ElfLoad(s, p, exe, phs, dll).mem;
    assert ImageLoaded(s.mem, m', p, exe, phs[k]);
    assert Image(s.mem, m', p, exe, phs[k], w);
  }

  // An image that shows it: one segment of one page, at the linkage page.
  lemma LinkageWins(s: Machine, p: int, exe: int, dll: u32, w: u32)
    requires ImageOk(s, p, exe, [Phdr(ELF_PROG_LOAD, 0, VM_DYNLINK, 4096, 4096, 5)], dll)
    requires ElfNeeds(s.mem, p, [Phdr(ELF_PROG_LOAD, 0, VM_DYNLINK, 4096, 4096, 5)]) <= |FreePages(s.pool.pmm)|
    requires PmmOk(s.pool.pmm) && Linked(w) && s.mem[exe + (w - VM_DYNLINK)] != s.mem[dll + (w - VM_DYNLINK)]
    ensures var s' := ElfLoad(s, p, exe, [Phdr(ELF_PROG_LOAD, 0, VM_DYNLINK, 4096, 4096, 5)], dll);
      UserByte(s'.mem, p, w) != s.mem[exe + (w - VM_DYNLINK)]
  {
    hide Inv, PmmOk, ElfLoad, FreePages, ElfNeeds, FilesSafe, PageDisjoint, KernelBuffer, UserByte, Mapped;
    var ph := Phdr(ELF_PROG_LOAD, 0, VM_DYNLINK, 4096, 4096, 5);
    ReadsBackIff(s, p, exe, [ph], dll, 0, w);
    assert FileByte(s.mem, exe, ph, w) == s.mem[exe + (w - VM_DYNLINK)];
  }
}
