// kern/lib/pmap.c: page-crossing copies between kernel memory and a process, with on-demand allocation.
module UserCopy {
  import opened Words
  import opened PageAllocator
  import opened Containers
  import opened PageTables
  import opened PageMaps
  import opened Quota
  import opened Budget

  const USER_RW := 7   // PTE_P | PTE_U | PTE_W

  /* ----- the memory a process sees ----- */

  function Phys(m: Mem, q: int, va: u32): (r: u32)
    requires Pid(q)
    ensures r / 4096 == Lookup(m, q, va) / 4096 && r % 4096 == va % 4096 && r + 4096 - va % 4096 <= MEM_SIZE
  { PageSplit(Lookup(m, q, va) / 4096, va % 4096); Lookup(m, q, va) / 4096 * 4096 + va % 4096 }

  function UserByte(m: Mem, q: int, va: u32): byte
    requires Pid(q)
  { m[Phys(m, q, va)] }

  // Kernel memory proper: no page table, and no page the allocator can hand out.
  predicate KernelByte(s: Machine, a: int) {
    0 <= a < MEM_SIZE && !StaticByte(a) && !Normal(s.pool.pmm, a / 4096)
  }

  ghost predicate KernelBuffer(s: Machine, a: int, n: int) {
    0 <= a && 0 <= n && a + n <= MEM_SIZE && forall i :: a <= i < a + n ==> KernelByte(s, i)
  }

  /* ----- operations ----- */

  // Both allocation paths of palloc and the roll-back leave a usable allocator behind.
  lemma AllocPageCursor(s: Machine, p: int, va: u32, perm: int)
    requires Pid(p) && PmmOk(s.pool.pmm) && 0 <= perm < 4096
    ensures PmmOk(AllocPage(s, p, va, perm).0.pool.pmm)
  {
    hide Palloc, Pde, SetPte, InstallTable, Charge;
    PallocFirstFit(s.pool.pmm);
    PallocFirstFit(Palloc(s.pool.pmm).0);
  }

  // The on-demand step shared by the three loops; a failed allocation is not noticed.
  function Touch(s: Machine, p: int, uva: u32): (r: Machine)
    requires Pid(p) && PmmOk(s.pool.pmm)
    ensures PmmOk(r.pool.pmm)
  {
    AllocPageCursor(s, p, uva, USER_RW);
    if Present(Lookup(s.mem, p, uva)) then s else AllocPage(s, p, uva, USER_RW).0
  }

  function ChunkSize(uva: int, len: int): (r: int)
    requires 0 < len
    ensures 0 < r <= len && r <= 4096 - uva % 4096
  { Min(len, 4096 - uva % 4096) }

  // What a user range is filled from.
  datatype Source = Kernel(kva: int) | Constant(c: byte)

  predicate SourceInRange(src: Source, n: int) {
    src.Kernel? ==> 0 <= src.kva && src.kva + n <= MEM_SIZE
  }

  function Advance(src: Source, n: int): Source {
    if src.Kernel? then Kernel(src.kva + n) else src
  }

  function PutChunk(m: Mem, pa: int, src: Source, n: int): Mem
    requires 0 <= n && 0 <= pa && pa + n <= MEM_SIZE && SourceInRange(src, n)
  {
    if src.Kernel? then CopyBytes(m, pa, src.kva, n) else FillBytes(m, pa, src.c, n)
  }

  // One pass of the loop of pt_copyout (memcpy) and of pt_memset (memset).
  function WriteChunk(s: Machine, p: int, uva: u32, n: int, src: Source): (r: Machine)
    requires Pid(p) && PmmOk(s.pool.pmm) && 0 <= n <= 4096 - uva % 4096 && SourceInRange(src, n)
    ensures PmmOk(r.pool.pmm)
  {
    hide PmmOk;
    var s1 := Touch(s, p, uva);
    s1.(mem := PutChunk(s1.mem, Phys(s1.mem, p, uva), src, n))
  }

  // The 32-bit sum by which the loops step through user addresses.
  function NextVa(uva: u32, n: int): (r: u32)
    requires 0 <= n <= 4096
    ensures r == if uva + n < MEM_SIZE then uva + n else uva + n - MEM_SIZE
  { ToU32(uva + n) }

  function WriteUser(s: Machine, p: int, uva: u32, len: int, src: Source): Machine
    requires Pid(p) && PmmOk(s.pool.pmm) && 0 <= len && SourceInRange(src, len)
    decreases len
  {
    hide PmmOk;
    if len == 0 then s
    else
      var n := ChunkSize(uva, len);
      WriteUser(WriteChunk(s, p, uva, n, src), p, NextVa(uva, n), len - n, Advance(src, n))
  }

  // One pass, and the loop, of pt_copyin.
  function ReadChunk(s: Machine, p: int, uva: u32, kva: int, n: int): (r: Machine)
    requires Pid(p) && PmmOk(s.pool.pmm) && 0 <= n <= 4096 - uva % 4096 && 0 <= kva && kva + n <= MEM_SIZE
    ensures PmmOk(r.pool.pmm)
  {
    hide PmmOk;
    var s1 := Touch(s, p, uva);
    s1.(mem := CopyBytes(s1.mem, kva, Phys(s1.mem, p, uva), n))
  }

  function ReadUser(s: Machine, p: int, uva: u32, kva: int, len: int): Machine
    requires Pid(p) && PmmOk(s.pool.pmm) && 0 <= len && 0 <= kva && kva + len <= MEM_SIZE
    decreases len
  {
    hide PmmOk;
    if len == 0 then s
    else
      var n := ChunkSize(uva, len);
      ReadUser(ReadChunk(s, p, uva, kva, n), p, NextVa(uva, n), kva + n, len - n)
  }

  // What the range checks of pt_copyin and pt_copyout are for: a user range, and a buffer below its end.
  predicate RangesOk(uva: int, kva: int, len: int) {
    VM_USERLO <= uva && uva + len <= VM_USERHI && kva + len <= VM_USERHI
  }

  // The checks themselves, on 32-bit sums.
  predicate Accepted(uva: u32, kva: u32, len: u32): (r: bool)
    ensures RangesOk(uva, kva, len) ==> r
    ensures r && uva + len < MEM_SIZE && kva + len < MEM_SIZE ==> RangesOk(uva, kva, len)
  { VM_USERLO <= uva && ToU32(uva + len) <= VM_USERHI && ToU32(kva + len) <= VM_USERHI }

  // The arguments with which they accept no sum that wraps.
  predicate WrapFree(uva: u32, kva: u32, len: u32) {
    Accepted(uva, kva, len) ==> uva + len < MEM_SIZE && kva + len < MEM_SIZE
  }

  // The checks do what they are for exactly then; the last page of the address space is one exception.
  lemma RangeCheckIff(uva: u32, kva: u32, len: u32)
    ensures (Accepted(uva, kva, len) <==> RangesOk(uva, kva, len)) <==> WrapFree(uva, kva, len)
    ensures Accepted(0xFFFF_F000, 0, 4096) && !RangesOk(0xFFFF_F000, 0, 4096)
  {
    hide ToU32;
    assert ToU32(0xFFFF_F000 + 4096) == 0 && ToU32(4096) == 4096 by { Unwrapped(4096); Unwrapped(0xFFFF_F000 + 4096); }
  }

  lemma Unwrapped(x: int)
    requires 0 <= x < 0x2_0000_0000
    ensures ToU32(x) == if x < MEM_SIZE then x else x - MEM_SIZE
  {
  }

  // A kernel buffer is an object of len bytes at kva; the user range may be any 32-bit range.
  function PtCopyout(s: Machine, kva: u32, p: int, uva: u32, len: u32): (r: (Machine, int))
    requires Pid(p) && PmmOk(s.pool.pmm) && kva + len <= MEM_SIZE
    ensures PmmOk(r.0.pool.pmm)
  {
    hide PmmOk;
    if Accepted(uva, kva, len) then
      WriteUserPmm(s, p, uva, len, Kernel(kva));
      (WriteUser(s, p, uva, len, Kernel(kva)), len)
    else (s, 0)
  }

  function PtCopyin(s: Machine, p: int, uva: u32, kva: u32, len: u32): (r: (Machine, int))
    requires Pid(p) && PmmOk(s.pool.pmm) && kva + len <= MEM_SIZE
    ensures PmmOk(r.0.pool.pmm)
  {
    hide PmmOk;
    if Accepted(uva, kva, len) then
      ReadUserPmm(s, p, uva, kva, len);
      (ReadUser(s, p, uva, kva, len), len)
    else (s, 0)
  }

  function PtMemset(s: Machine, p: int, va: u32, c: int, len: u32): (r: (Machine, int))
    requires Pid(p) && PmmOk(s.pool.pmm)
    ensures PmmOk(r.0.pool.pmm)
  {
    hide PmmOk;
    WriteUserPmm(s, p, va, len, Constant(c % 0x100));
    (WriteUser(s, p, va, len, Constant(c % 0x100)), len)
  }

  lemma {:induction false} WriteUserPmm(s: Machine, p: int, uva: u32, len: int, src: Source)
    requires Pid(p) && PmmOk(s.pool.pmm) && 0 <= len && SourceInRange(src, len)
    ensures PmmOk(WriteUser(s, p, uva, len, src).pool.pmm)
    decreases len
  {
    hide PmmOk, WriteChunk;
    if len > 0 {
      var n := ChunkSize(uva, len);
      WriteUserPmm(WriteChunk(s, p, uva, n, src), p, NextVa(uva, n), len - n, Advance(src, n));
    }
  }

  lemma {:induction false} ReadUserPmm(s: Machine, p: int, uva: u32, kva: int, len: int)
    requires Pid(p) && PmmOk(s.pool.pmm) && 0 <= len && 0 <= kva && kva + len <= MEM_SIZE
    ensures PmmOk(ReadUser(s, p, uva, kva, len).pool.pmm)
    decreases len
  {
    hide PmmOk, ReadChunk;
    if len > 0 {
      var n := ChunkSize(uva, len);
      ReadUserPmm(ReadChunk(s, p, uva, kva, n), p, NextVa(uva, n), kva + n, len - n);
    }
  }

  /* ----- what a copy keeps ----- */

  ghost predicate SamePerms(s: Machine, s': Machine) {
    forall i :: Page(i) ==> s'.pool.pmm.at[i].perm == s.pool.pmm.at[i].perm
  }

  // Every translation that existed is kept, in every process.
  ghost predicate KeepsLookups(m: Mem, m': Mem) {
    forall q, vb: u32 :: UserPid(q) && UserVa(vb) && Mapped(m, q, vb) ==> Lookup(m', q, vb) == Lookup(m, q, vb)
  }

  // Every mapped user byte outside [lo, hi) of process p is kept.
  ghost predicate KeepsBytes(m: Mem, m': Mem, p: int, lo: int, hi: int) {
    forall q, vb: u32 :: UserPid(q) && UserVa(vb) && Mapped(m, q, vb) && !(q == p && lo <= vb < hi) ==>
      UserByte(m', q, vb) == UserByte(m, q, vb)
  }

  // New mappings appear only for pages of p that meet [lo, hi).
  ghost predicate MapsOnly(m: Mem, m': Mem, p: int, lo: int, hi: int) {
    forall q, vb: u32 :: UserPid(q) && UserVa(vb) && !Mapped(m, q, vb) && Mapped(m', q, vb)
      ==> q == p && lo / 4096 * 4096 <= vb && vb / 4096 * 4096 < hi
  }

  // And they carry PTE_P, PTE_W and PTE_U, nothing else.
  ghost predicate NewFlags(m: Mem, m': Mem) {
    forall q, vb: u32 :: UserPid(q) && UserVa(vb) && !Mapped(m, q, vb) && Mapped(m', q, vb) ==>
      Lookup(m', q, vb) % 4096 == 7
  }

  ghost predicate KeepsKernel(s: Machine, s': Machine) {
    SamePerms(s, s') && forall a :: KernelByte(s, a) ==> s'.mem[a] == s.mem[a]
  }

  ghost predicate Confined(s: Machine, s': Machine, p: int, lo: int, hi: int) {
    && KeepsLookups(s.mem, s'.mem) && KeepsBytes(s.mem, s'.mem, p, lo, hi)
    && MapsOnly(s.mem, s'.mem, p, lo, hi) && NewFlags(s.mem, s'.mem) && KeepsKernel(s, s')
  }

  lemma ConfinedTrans(s: Machine, s1: Machine, s2: Machine, p: int, lo1: int, hi1: int, lo2: int, hi2: int,
      lo: int, hi: int)
    requires Confined(s, s1, p, lo1, hi1) && Confined(s1, s2, p, lo2, hi2)
    requires 0 <= lo <= lo1 && lo <= lo2 && hi1 <= hi && hi2 <= hi
    ensures Confined(s, s2, p, lo, hi)
  {
    hide Lookup, Phys, StaticByte;
  }

  /* ----- one on-demand allocation ----- */

  // A mapped address lies in the frame of a live mapping slot.
  lemma MappedFrame(s: Machine, q: int, vb: u32)
    requires Inv(s) && UserPid(q) && UserVa(vb) && Mapped(s.mem, q, vb)
    ensures Live(s.mem, SlotOf(q, vb)) && FrameOf(s.mem, SlotOf(q, vb)) == Phys(s.mem, q, vb) / 4096
    ensures UserPage(Phys(s.mem, q, vb) / 4096) && OutsideTables(s, Phys(s.mem, q, vb))
    ensures Allocated(s.pool.pmm, Phys(s.mem, q, vb) / 4096)
  {
    UserSlots(q, vb);
    var x := SlotOf(q, vb);
    assert Live(s.mem, x) && EntryOf(s.mem, x) == Lookup(s.mem, q, vb);
    hide Pde, Pte, PdeIdx, PteIdx, KernelHalf;
    var f := FrameOf(s.mem, x);
    assert UserPage(f);
    forall p, d | Live(s.mem, Table(p, d))
      ensures FrameOf(s.mem, Table(p, d)) != f
    {
      assert Table(p, d) != x;
    }
    UserPageNotStatic(Phys(s.mem, q, vb));
  }

  lemma UserPageNotStatic(a: int)
    requires UserPage(a / 4096)
    ensures !StaticByte(a)
  {
  }

  lemma KernelOutside(s: Machine, a: int)
    requires Inv(s) && KernelByte(s, a)
    ensures OutsideTables(s, a) && !TableByte(s.mem, a)
  {
    hide EntryOf, KernelHalf, UserDirs, Separated;
  }

  lemma AllocKeepsPerms(s: Pool, p: int)
    requires Id(p) && UserPage(s.pmm.cursor)
    ensures forall i :: Page(i) ==> Alloc(s, p).0.pmm.at[i].perm == s.pmm.at[i].perm
  {
  }

  lemma ReleaseKeepsPerms(s: Pool, p: int, page: int)
    requires Id(p) && Page(page)
    ensures forall i :: Page(i) ==> Release(s, p, page).pmm.at[i].perm == s.pmm.at[i].perm
  {
  }

  lemma AllocPtblPerms(s: Machine, p: int, va: u32)
    requires Pid(p) && PmmOk(s.pool.pmm)
    ensures SamePerms(s, AllocPtbl(s, p, va).0)
  {
    hide Alloc;
    AllocKeepsPerms(s.pool, p);
  }

  lemma AllocPagePerms(s: Machine, p: int, va: u32, perm: int)
    requires Pid(p) && PmmOk(s.pool.pmm) && 0 <= perm < 4096
    ensures SamePerms(s, AllocPage(s, p, va, perm).0)
  {
    PallocFirstFit(s.pool.pmm);
    hide Alloc, AllocPtbl, Release;
    AllocKeepsPerms(s.pool, p);
    var (pool, f) := Alloc(s.pool, p);
    if f != 0 {
      var s1 := s.(pool := pool);
      AllocPtblPerms(s1, p, va);
      ReleaseKeepsPerms(MapPage(s1, p, va, f, perm).0.pool, p, f);
    }
  }

  // After alloc_page only the page of uva looks different.
  ghost predicate NewPage(m: Mem, m': Mem, p: int, uva: u32, e: u32) {
    forall q, vb: u32 :: UserPid(q) && UserVa(vb) ==>
      Lookup(m', q, vb) == if Key(q, vb) == Key(p, uva) then e else Lookup(m, q, vb)
  }

  lemma AllocNewPage(s: Machine, p: int, uva: u32, perm: int)
    requires Inv(s) && UserPid(p) && UserVa(uva) && 0 <= perm < 4096 && perm % 2 == 1
    requires AllocPage(s, p, uva, perm).1 != MAGIC_NUMBER
    ensures NewPage(s.mem, AllocPage(s, p, uva, perm).0.mem, p, uva, Entry(Alloc(s.pool, p).1, perm))
    ensures Page(Alloc(s.pool, p).1)
  {
    var s1 := AllocPage(s, p, uva, perm).0;
    var e := Entry(Alloc(s.pool, p).1, perm);
    AllocPageMaps(s, p, uva, perm);
    EntryParts(Alloc(s.pool, p).1, perm);
    hide AllocPage, Alloc, Inv, Maps, Entry, Lookup, Present, Free;
    forall q, vb: u32 | UserPid(q) && UserVa(vb)
      ensures Lookup(s1.mem, q, vb) == if Key(q, vb) == Key(p, uva) then e else Lookup(s.mem, q, vb)
    {
      MapsLookup(s.mem, s1.mem, p, uva, e, q, vb);
    }
  }

  lemma AllocKeepsBytes(s: Machine, p: int, uva: u32, perm: int, q: int, vb: u32)
    requires Inv(s) && UserPid(p) && UserVa(uva) && 0 <= perm < 4096
    requires UserPid(q) && UserVa(vb) && Mapped(s.mem, q, vb)
    requires Lookup(AllocPage(s, p, uva, perm).0.mem, q, vb) == Lookup(s.mem, q, vb)
    ensures UserByte(AllocPage(s, p, uva, perm).0.mem, q, vb) == UserByte(s.mem, q, vb)
  {
    MappedFrame(s, q, vb);
    AllocPageBytes(s, p, uva, perm, Phys(s.mem, q, vb));
    hide AllocPage, Inv, Lookup, OutsideTables;
  }

  lemma AllocKeepsKernel(s: Machine, p: int, uva: u32, perm: int)
    requires Inv(s) && UserPid(p) && UserVa(uva) && 0 <= perm < 4096 && AllocPage(s, p, uva, perm).1 != MAGIC_NUMBER
    ensures KeepsKernel(s, AllocPage(s, p, uva, perm).0)
  {
    assert PmmOk(s.pool.pmm);
    hide AllocPage, Inv, SamePerms, KernelByte, PmmOk;
    AllocPagePerms(s, p, uva, perm);
    forall a | KernelByte(s, a)
      ensures 0 <= a < MEM_SIZE && AllocPage(s, p, uva, perm).0.mem[a] == s.mem[a]
    {
      KernelOutside(s, a);
      AllocPageBytes(s, p, uva, perm, a);
    }
  }

  // alloc_page for an unmapped address disturbs nobody.
  lemma AllocConfined(s: Machine, p: int, uva: u32, n: int)
    requires Inv(s) && UserPid(p) && UserVa(uva) && !Mapped(s.mem, p, uva) && 0 < n
    requires AllocPage(s, p, uva, USER_RW).1 != MAGIC_NUMBER
    ensures var s1 := AllocPage(s, p, uva, USER_RW).0; Mapped(s1.mem, p, uva) && Confined(s, s1, p, uva, uva + n)
    ensures KeepsBytes(s.mem, AllocPage(s, p, uva, USER_RW).0.mem, p, 0, 0)
  {
    var s1 := AllocPage(s, p, uva, USER_RW).0;
    AllocNewPage(s, p, uva, USER_RW);
    EntryParts(Alloc(s.pool, p).1, USER_RW);
    AllocKeepsKernel(s, p, uva, USER_RW);
    hide AllocPage, Alloc, Inv, Entry, Lookup, KeepsKernel, Present;
    forall q, vb: u32 | UserPid(q) && UserVa(vb) && Mapped(s.mem, q, vb)
      ensures Lookup(s1.mem, q, vb) == Lookup(s.mem, q, vb) && UserByte(s1.mem, q, vb) == UserByte(s.mem, q, vb)
    {
      SamePageLookup(s.mem, q, uva, vb);
      AllocKeepsBytes(s, p, uva, USER_RW, q, vb);
    }
  }

  lemma SamePageLookup(m: Mem, q: int, va: u32, vb: u32)
    requires Pid(q)
    ensures va / 4096 == vb / 4096 ==> Lookup(m, q, va) == Lookup(m, q, vb)
  {
    SamePage(va, vb);
    hide Pte;
  }

  /* ----- one chunk ----- */

  function SrcByte(m: Mem, src: Source, i: int): byte
    requires 0 <= i && SourceInRange(src, i + 1)
  {
    if src.Kernel? then m[src.kva + i] else src.c
  }

  lemma PutEffect(m: Mem, pa: int, src: Source, n: int)
    requires 0 <= n && 0 <= pa && pa + n <= MEM_SIZE && SourceInRange(src, n)
    ensures forall a :: 0 <= a < MEM_SIZE ==>
      PutChunk(m, pa, src, n)[a] == if pa <= a < pa + n then SrcByte(m, src, a - pa) else m[a]
  {
  }

  lemma SameEntriesLookup(m: Mem, m': Mem, q: int, vb: u32)
    requires SameEntries(m, m') && UserPid(q) && UserVa(vb)
    ensures Lookup(m', q, vb) == Lookup(m, q, vb)
  {
    UserSlots(q, vb);
    assert EntryOf(m', SlotOf(q, vb)) == EntryOf(m, SlotOf(q, vb));
    hide Pde, Pte, PdeIdx, PteIdx;
  }

  // Two mapped addresses of the same physical page belong to one process and one virtual page.
  lemma OneOwner(s: Machine, p: int, va: u32, q: int, vb: u32)
    requires Inv(s) && UserPid(p) && UserVa(va) && Mapped(s.mem, p, va) && UserPid(q) && UserVa(vb)
    requires Mapped(s.mem, q, vb)
    requires Phys(s.mem, p, va) / 4096 == Phys(s.mem, q, vb) / 4096
    ensures p == q && va / 4096 == vb / 4096
  {
    MappedFrame(s, p, va);
    MappedFrame(s, q, vb);
    assert SlotOf(p, va) == SlotOf(q, vb);
    hide Inv, Lookup, Live, FrameOf;
    SamePage(va, vb);
  }

  // Memory that differs only inside [pa, pa + n) of the page mapped at (p, uva).
  ghost predicate InPage(m: Mem, m': Mem, p: int, uva: u32, n: int)
    requires Pid(p)
  {
    var pa := Phys(m, p, uva);
    forall a :: 0 <= a < MEM_SIZE && !(pa <= a < pa + n) ==> m'[a] == m[a]
  }

  lemma InPageTables(s: Machine, m': Mem, p: int, uva: u32, n: int)
    requires Inv(s) && UserPid(p) && UserVa(uva) && Mapped(s.mem, p, uva) && 0 <= n <= 4096 - uva % 4096
    requires InPage(s.mem, m', p, uva, n)
    ensures Inv(s.(mem := m')) && SameEntries(s.mem, m')
  {
    MappedFrame(s, p, uva);
    var pa := Phys(s.mem, p, uva);
    forall a | 0 <= a < MEM_SIZE && TableByte(s.mem, a)
      ensures m'[a] == s.mem[a]
    {
      if pa <= a < pa + n {
        SameFrame(pa, a, uva);
        NotTable(s, pa, a);
      }
    }
    hide Lookup, TableByte, KernelHalf, UserDirs, Separated, InUserFrames;
    DataWrite(s.mem, m');
    BackedSame(s, m');
  }

  lemma SameFrame(pa: int, a: int, uva: int)
    requires pa % 4096 == uva % 4096 && pa <= a < pa + 4096 - uva % 4096
    ensures a / 4096 == pa / 4096 && a % 4096 == uva % 4096 + (a - pa)
  {
    PageSplit(pa / 4096, pa % 4096 + (a - pa));
  }

  lemma NotTable(s: Machine, pa: int, a: int)
    requires OutsideTables(s, pa) && UserPage(pa / 4096) && a / 4096 == pa / 4096
    ensures !TableByte(s.mem, a)
  {
  }

  lemma BackedSame(s: Machine, m': Mem)
    requires Inv(s) && SameEntries(s.mem, m') && TablesOk(m')
    ensures Inv(s.(mem := m'))
  {
    hide EntryOf, TablesOk, PmmOk;
  }

  lemma InPageBytes(s: Machine, m': Mem, p: int, uva: u32, n: int, q: int, vb: u32)
    requires Inv(s) && UserPid(p) && UserVa(uva) && Mapped(s.mem, p, uva) && 0 <= n <= 4096 - uva % 4096
    requires InPage(s.mem, m', p, uva, n) && SameEntries(s.mem, m')
    requires UserPid(q) && UserVa(vb) && Mapped(s.mem, q, vb) && !(q == p && uva <= vb < uva + n)
    ensures UserByte(m', q, vb) == UserByte(s.mem, q, vb)
  {
    SameEntriesLookup(s.mem, m', q, vb);
    var pa, a := Phys(s.mem, p, uva), Phys(s.mem, q, vb);
    hide Inv, Lookup, SameEntries;
    if pa <= a < pa + n {
      SameFrame(pa, a, uva);
      OneOwner(s, p, uva, q, vb);
    }
  }

  lemma InPageConfined(s: Machine, m': Mem, p: int, uva: u32, n: int)
    requires Inv(s) && UserPid(p) && UserVa(uva) && Mapped(s.mem, p, uva) && 0 <= n <= 4096 - uva % 4096
    requires InPage(s.mem, m', p, uva, n)
    ensures Inv(s.(mem := m')) && SameEntries(s.mem, m') && Confined(s, s.(mem := m'), p, uva, uva + n)
  {
    InPageTables(s, m', p, uva, n);
    hide Inv, Lookup, SameEntries, InPage, Phys, StaticByte;
    forall q, vb: u32 | UserPid(q) && UserVa(vb)
      ensures Lookup(m', q, vb) == Lookup(s.mem, q, vb)
    {
      SameEntriesLookup(s.mem, m', q, vb);
    }
    forall q, vb: u32 | UserPid(q) && UserVa(vb) && Mapped(s.mem, q, vb) && !(q == p && uva <= vb < uva + n)
      ensures UserByte(m', q, vb) == UserByte(s.mem, q, vb)
    {
      InPageBytes(s, m', p, uva, n, q, vb);
    }
    InPageKernel(s, m', p, uva, n);
  }

  lemma InPageKernel(s: Machine, m': Mem, p: int, uva: u32, n: int)
    requires Inv(s) && UserPid(p) && UserVa(uva) && Mapped(s.mem, p, uva) && 0 <= n <= 4096 - uva % 4096
    requires InPage(s.mem, m', p, uva, n)
    ensures KeepsKernel(s, s.(mem := m'))
  {
    MappedFrame(s, p, uva);
    var pa := Phys(s.mem, p, uva);
    assert Normal(s.pool.pmm, pa / 4096);
    hide Inv, Lookup, StaticByte, OutsideTables, Live, FrameOf;
    forall a | KernelByte(s, a)
      ensures m'[a] == s.mem[a]
    {
      if pa <= a < pa + n {
        SameFrame(pa, a, uva);
      }
    }
  }

  // What one on-demand allocation, when it succeeds, does to the tables of p.
  lemma AllocOnePage(s: Machine, p: int, va: u32, perm: int)
    requires Inv(s) && UserPid(p) && UserVa(va) && 0 <= perm < 4096 && perm % 2 == 1
    requires AllocPage(s, p, va, perm).1 != MAGIC_NUMBER
    ensures OnePage(s.mem, AllocPage(s, p, va, perm).0.mem, p, va)
  {
    hide Inv, AllocPage, Alloc, Maps, Entry, Lookup, Pde, Present, Free, NewPage;
    InvPmm(s);
    var m' := AllocPage(s, p, va, perm).0.mem;
    AllocPageMaps(s, p, va, perm);
    MapsOpened(s.mem, m', p, va, Entry(Alloc(s.pool, p).1, perm));
    AllocNewPage(s, p, va, perm);
    EntryParts(Alloc(s.pool, p).1, perm);
    NewPageOnly(s.mem, m', p, va, Entry(Alloc(s.pool, p).1, perm));
  }

  lemma MapsOpened(m: Mem, m': Mem, p: int, va: u32, e: u32)
    requires UserPid(p) && UserVa(va) && Maps(m, m', p, va, e)
    ensures Opened(m, m', p, {PdeIdx(va)})
  {
    hide Pde, PdeIdx, PteIdx;
    UserSlots(p, va);
    forall d | UserPde(d)
      ensures Present(Pde(m', p, d)) <==> Present(Pde(m, p, d)) || d in {PdeIdx(va)}
    {
      assert OneMapping(m, m', p, va, e, Table(p, d));
    }
  }

  lemma NewPageOnly(m: Mem, m': Mem, p: int, va: u32, e: u32)
    requires UserPid(p) && UserVa(va) && NewPage(m, m', p, va, e) && Present(e)
    ensures Mapped(m', p, va)
    ensures forall v :: UserPage(v) && v != va / 4096 ==> (Mapped(m', p, 4096 * v) <==> Mapped(m, p, 4096 * v))
  {
    hide Lookup;
    forall v | UserPage(v) && v != va / 4096
      ensures Mapped(m', p, 4096 * v) <==> Mapped(m, p, 4096 * v)
    {
      PageSplit(v, 0);
      assert Key(p, 4096 * v) != Key(p, va);
    }
  }

  lemma TouchCorrect(s: Machine, p: int, uva: u32, n: int)
    requires Inv(s) && UserPid(p) && UserVa(uva) && PageNeeds(s.mem, p, uva) <= |FreePages(s.pool.pmm)| && 0 < n
    requires PmmOk(s.pool.pmm)
    ensures var s1 := Touch(s, p, uva);
      && Inv(s1) && Confined(s, s1, p, uva, uva + n) && KeepsBytes(s.mem, s1.mem, p, 0, 0)
      && Took(s.pool, s1.pool, p, PageNeeds(s.mem, p, uva)) && OnePage(s.mem, s1.mem, p, uva)
  {
    hide Inv, Took, Confined, KeepsBytes, OnePage, FreePages, AllocPage, Lookup, Pde, PmmOk;
    PresentLookup(s.mem, p, uva);
    if Mapped(s.mem, p, uva) {
      MappedTable(s.mem, p, uva);
      TookNothing(s.pool, p);
      MappedOnePage(s.mem, p, uva);
      ConfinedRefl(s, p, uva, uva + n);
      BytesRefl(s.mem, p);
    } else {
      AllocPageIff(s, p, uva, USER_RW);
      AllocPageInv(s, p, uva, USER_RW);
      AllocOnePage(s, p, uva, USER_RW);
      AllocConfined(s, p, uva, n);
    }
  }

  lemma PresentLookup(m: Mem, p: int, va: u32)
    requires Pid(p)
    ensures Present(Lookup(m, p, va)) <==> Mapped(m, p, va)
  {
    hide Pte;
  }

  lemma BytesRefl(m: Mem, p: int)
    ensures KeepsBytes(m, m, p, 0, 0)
  {
  }

  lemma MappedOnePage(m: Mem, p: int, va: u32)
    requires Pid(p) && Mapped(m, p, va)
    ensures OnePage(m, m, p, va)
  {
    hide Mapped, Pde;
    MappedTable(m, p, va);
  }

  lemma ConfinedRefl(s: Machine, p: int, lo: int, hi: int)
    ensures Confined(s, s, p, lo, hi)
  {
    hide Lookup, Phys, StaticByte;
  }

  // The bytes a chunk of the user range holds afterwards.
  ghost predicate Holds(m': Mem, p: int, uva: int, n: int, m: Mem, src: Source)
    requires Pid(p) && 0 <= uva && uva + n < MEM_SIZE && SourceInRange(src, n)
  {
    forall vb: u32 :: uva <= vb < uva + n ==> Mapped(m', p, vb) && UserByte(m', p, vb) == SrcByte(m, src, vb - uva)
  }

  lemma PutInPage(m: Mem, p: int, uva: u32, n: int, src: Source)
    requires Pid(p) && 0 <= n <= 4096 - uva % 4096 && SourceInRange(src, n)
    ensures InPage(m, PutChunk(m, Phys(m, p, uva), src, n), p, uva, n)
  {
    PutEffect(m, Phys(m, p, uva), src, n);
    hide PutChunk, Lookup;
  }

  lemma PutEffectAt(m: Mem, pa: int, src: Source, n: int, i: int)
    requires 0 <= i < n && 0 <= pa && pa + n <= MEM_SIZE && SourceInRange(src, n)
    ensures PutChunk(m, pa, src, n)[pa + i] == SrcByte(m, src, i)
  {
  }

  lemma PutByte(m: Mem, p: int, uva: u32, n: int, src: Source, i: int)
    requires UserPid(p) && UserVa(uva) && Mapped(m, p, uva) && 0 <= i < n <= 4096 - uva % 4096
    requires SourceInRange(src, n) && UserRange(uva, n) && SameEntries(m, PutChunk(m, Phys(m, p, uva), src, n))
    ensures var m' := PutChunk(m, Phys(m, p, uva), src, n);
      Mapped(m', p, uva + i) && UserByte(m', p, uva + i) == SrcByte(m, src, i)
  {
    hide PutChunk, Lookup, SameEntries, SrcByte, Phys;
    PutEffectAt(m, Phys(m, p, uva), src, n, i);
    SameEntriesLookup(m, PutChunk(m, Phys(m, p, uva), src, n), p, uva + i);
    InSamePage(uva, i);
    SamePageLookup(m, p, uva, uva + i);
    SamePhys(m, PutChunk(m, Phys(m, p, uva), src, n), p, uva, i);
  }

  lemma InSamePage(uva: int, i: int)
    requires 0 <= i < 4096 - uva % 4096
    ensures (uva + i) / 4096 == uva / 4096
  {
    SameFrame(uva, uva + i, uva);
  }

  lemma SamePhys(m: Mem, m': Mem, p: int, uva: u32, i: int)
    requires Pid(p) && 0 <= i < 4096 - uva % 4096 && uva + i < MEM_SIZE && Lookup(m', p, uva + i) == Lookup(m, p, uva)
    ensures Phys(m', p, uva + i) == Phys(m, p, uva) + i
  {
    SameFrame(uva, uva + i, uva);
    hide Lookup;
  }

  lemma PutConfined(s: Machine, p: int, uva: u32, n: int, src: Source)
    requires Inv(s) && UserPid(p) && UserVa(uva) && Mapped(s.mem, p, uva) && 0 <= n <= 4096 - uva % 4096
    requires SourceInRange(src, n)
    ensures var m' := PutChunk(s.mem, Phys(s.mem, p, uva), src, n);
      Inv(s.(mem := m')) && SameEntries(s.mem, m') && Confined(s, s.(mem := m'), p, uva, uva + n)
  {
    PutInPage(s.mem, p, uva, n, src);
    hide PutChunk, Inv, Lookup, Phys, SameEntries, InPage, Confined, Mapped;
    InPageConfined(s, PutChunk(s.mem, Phys(s.mem, p, uva), src, n), p, uva, n);
  }

  lemma PutHolds(m: Mem, p: int, uva: u32, n: int, src: Source)
    requires UserPid(p) && UserVa(uva) && Mapped(m, p, uva) && 0 <= n <= 4096 - uva % 4096
    requires SourceInRange(src, n) && UserRange(uva, n) && SameEntries(m, PutChunk(m, Phys(m, p, uva), src, n))
    ensures Holds(PutChunk(m, Phys(m, p, uva), src, n), p, uva, n, m, src)
  {
    hide PutChunk, Lookup, Phys, SameEntries, SrcByte, Mapped, UserByte;
    var m' := PutChunk(m, Phys(m, p, uva), src, n);
    forall vb: u32 | uva <= vb < uva + n
      ensures Mapped(m', p, vb) && UserByte(m', p, vb) == SrcByte(m, src, vb - uva)
    {
      PutByte(m, p, uva, n, src, vb - uva);
    }
  }

  ghost predicate SourceSafe(s: Machine, src: Source, n: int) {
    src.Kernel? ==> KernelBuffer(s, src.kva, n)
  }

  // What writing n bytes at uva, from a source read in s, must achieve.
  ghost predicate Written(s: Machine, s': Machine, p: int, uva: int, n: int, src: Source, cost: int)
    requires Pid(p) && 0 <= uva && uva + n < MEM_SIZE && SourceInRange(src, n)
  {
    && Inv(s') && Took(s.pool, s'.pool, p, cost) && Opened(s.mem, s'.mem, p, Slots(uva, uva + n))
    && Confined(s, s', p, uva, uva + n) && Holds(s'.mem, p, uva, n, s.mem, src)
  }

  lemma WriteChunkCorrect(s: Machine, p: int, uva: u32, n: int, src: Source)
    requires Inv(s) && UserPid(p) && UserVa(uva) && UserRange(uva, n) && 0 < n <= 4096 - uva % 4096 && PmmOk(s.pool.pmm)
    requires SourceInRange(src, n) && SourceSafe(s, src, n) && PageNeeds(s.mem, p, uva) <= |FreePages(s.pool.pmm)|
    ensures var s' := WriteChunk(s, p, uva, n, src);
      Written(s, s', p, uva, n, src, PageNeeds(s.mem, p, uva)) && OnePage(s.mem, s'.mem, p, uva)
  {
    hide Inv, Took, OnePage, Touch, PutChunk, Lookup, Phys, KernelBuffer, Confined, Written, PmmOk, FreePages;
    hide PageNeeds;
    TouchCorrect(s, p, uva, n);
    ChunkWritten(s, Touch(s, p, uva), p, uva, n, src, PageNeeds(s.mem, p, uva));
  }

  lemma ChunkWritten(s: Machine, s1: Machine, p: int, uva: u32, n: int, src: Source, cost: int)
    requires Inv(s1) && UserPid(p) && UserVa(uva) && UserRange(uva, n) && 0 < n <= 4096 - uva % 4096
    requires SourceInRange(src, n) && SourceSafe(s, src, n)
    requires Took(s.pool, s1.pool, p, cost) && OnePage(s.mem, s1.mem, p, uva) && Confined(s, s1, p, uva, uva + n)
    ensures var s' := s1.(mem := PutChunk(s1.mem, Phys(s1.mem, p, uva), src, n));
      Written(s, s', p, uva, n, src, cost) && OnePage(s.mem, s'.mem, p, uva)
  {
    hide Inv, Took, PutChunk, Lookup, Phys, KernelBuffer, Confined, Holds, Mapped, SameEntries, KeepsKernel;
    hide Opened, PdeIdx, Slots;
    var m' := PutChunk(s1.mem, Phys(s1.mem, p, uva), src, n);
    var s2 := s1.(mem := m');
    ConfinedKernel(s, s1, p, uva, uva + n);
    PutConfined(s1, p, uva, n, src);
    PutHolds(s1.mem, p, uva, n, src);
    HoldsFrom(s, s1, m', p, uva, n, src);
    ConfinedTrans(s, s1, s2, p, uva, uva + n, uva, uva + n, uva, uva + n);
    SameEntriesOnePage(s.mem, s1.mem, m', p, uva);
    OneSlot(uva, n);
  }

  lemma SameEntriesOnePage(m: Mem, m1: Mem, m2: Mem, p: int, uva: u32)
    requires UserPid(p) && UserVa(uva) && OnePage(m, m1, p, uva) && SameEntries(m1, m2)
    ensures OnePage(m, m2, p, uva)
  {
    hide Lookup, Pde, PdeIdx;
    SameEntriesLookup(m1, m2, p, uva);
    forall v | UserPage(v) && v != uva / 4096
      ensures Mapped(m2, p, 4096 * v) <==> Mapped(m, p, 4096 * v)
    {
      SameEntriesLookup(m1, m2, p, 4096 * v);
    }
    forall d | UserPde(d)
      ensures Pde(m2, p, d) == Pde(m1, p, d)
    {
      assert EntryOf(m2, Table(p, d)) == EntryOf(m1, Table(p, d));
    }
  }

  lemma OneSlot(uva: u32, n: int)
    requires UserRange(uva, n) && 0 < n <= 4096 - uva % 4096
    ensures Slots(uva, uva + n) == {PdeIdx(uva)}
  {
    MetSplit(uva, n, uva + n);
    hide Slots;
    EmptySlots(uva + n);
  }

  lemma EmptySlots(a: int)
    ensures Slots(a, a) == {}
  {
  }

  lemma ConfinedKernel(s: Machine, s': Machine, p: int, lo: int, hi: int)
    requires Confined(s, s', p, lo, hi)
    ensures KeepsKernel(s, s')
  {
  }

  // Kernel sources read the same before and after an allocation.
  lemma HoldsFrom(s: Machine, s1: Machine, m': Mem, p: int, uva: int, n: int, src: Source)
    requires Pid(p) && 0 <= uva && 0 <= n && uva + n < MEM_SIZE && SourceInRange(src, n) && SourceSafe(s, src, n)
    requires KeepsKernel(s, s1) && Holds(m', p, uva, n, s1.mem, src)
    ensures Holds(m', p, uva, n, s.mem, src)
  {
  }

  lemma StillSafe(s: Machine, s1: Machine, a: int, n: int)
    requires KernelBuffer(s, a, n) && KeepsKernel(s, s1)
    ensures KernelBuffer(s1, a, n) && forall i :: a <= i < a + n ==> s1.mem[i] == s.mem[i]
  {
    hide StaticByte;
    forall i | a <= i < a + n
      ensures KernelByte(s1, i) && s1.mem[i] == s.mem[i]
    {
      assert KernelByte(s, i) && Page(i / 4096);
    }
  }

  /* ----- whole ranges ----- */

  lemma WrittenNothing(s: Machine, p: int, uva: int, src: Source)
    requires Inv(s) && UserPid(p) && 0 <= uva < MEM_SIZE && SourceInRange(src, 0)
    ensures Written(s, s, p, uva, 0, src, 0)
  {
    hide Inv, Took, Lookup, Phys, Pde;
    TookNothing(s.pool, p);
    ConfinedRefl(s, p, uva, uva);
    EmptySlots(uva);
  }

  lemma EarlierByte(s: Machine, s1: Machine, s2: Machine, p: int, uva: int, n: int, hi: int, src: Source, vb: u32)
    requires UserPid(p) && UserVa(vb) && 0 <= uva <= vb < uva + n < MEM_SIZE && SourceInRange(src, n)
    requires Confined(s1, s2, p, uva + n, hi) && Holds(s1.mem, p, uva, n, s.mem, src)
    ensures Mapped(s2.mem, p, vb) && UserByte(s2.mem, p, vb) == SrcByte(s.mem, src, vb - uva)
  {
    hide Lookup, Phys, KernelByte, UserByte;
    assert Mapped(s1.mem, p, vb);
  }

  lemma LaterByte(s: Machine, s1: Machine, m: Mem, p: int, uva: int, n: int, len: int, src: Source, vb: u32)
    requires UserPid(p) && UserRange(uva, len) && 0 < n <= len && SourceInRange(src, len) && SourceSafe(s, src, len)
    requires KeepsKernel(s, s1) && uva + n <= vb < uva + len && Holds(m, p, uva + n, len - n, s1.mem, Advance(src, n))
    ensures Mapped(m, p, vb) && UserByte(m, p, vb) == SrcByte(s.mem, src, vb - uva)
  {
    hide Lookup, Phys, KernelByte, UserByte, Mapped;
    if src.Kernel? {
      assert KernelByte(s, src.kva + (vb - uva));
    }
  }

  lemma HoldsJoin(s: Machine, s1: Machine, s2: Machine, p: int, uva: int, n: int, len: int, src: Source)
    requires UserPid(p) && UserRange(uva, len) && 0 < n <= len && SourceInRange(src, len) && SourceSafe(s, src, len)
    requires Confined(s, s1, p, uva, uva + n) && Holds(s1.mem, p, uva, n, s.mem, src)
    requires Confined(s1, s2, p, uva + n, uva + len) && Holds(s2.mem, p, uva + n, len - n, s1.mem, Advance(src, n))
    ensures Holds(s2.mem, p, uva, len, s.mem, src)
  {
    ConfinedKernel(s, s1, p, uva, uva + n);
    hide UserByte, Mapped, SrcByte, Confined, KeepsKernel, SourceSafe;
    forall vb: u32 | uva <= vb < uva + len
      ensures Mapped(s2.mem, p, vb) && UserByte(s2.mem, p, vb) == SrcByte(s.mem, src, vb - uva)
    {
      if vb < uva + n {
        EarlierByte(s, s1, s2, p, uva, n, uva + len, src, vb);
      } else {
        LaterByte(s, s1, s2.mem, p, uva, n, len, src, vb);
      }
    }
  }

  lemma WrittenJoin(s: Machine, s1: Machine, s2: Machine, p: int, uva: int, n: int, len: int, src: Source, c: nat,
      c': nat)
    requires UserPid(p) && UserRange(uva, len) && 0 < len && n == ChunkSize(uva, len)
    requires SourceInRange(src, len) && SourceSafe(s, src, len)
    requires Written(s, s1, p, uva, n, src, c) && Written(s1, s2, p, uva + n, len - n, Advance(src, n), c')
    ensures Written(s, s2, p, uva, len, src, c + c')
  {
    hide Inv, Took, Confined, Holds, SourceSafe, Opened, Slots;
    TookTrans(s.pool, s1.pool, s2.pool, p, c, c');
    HoldsJoin(s, s1, s2, p, uva, n, len, src);
    ConfinedTrans(s, s1, s2, p, uva, uva + n, uva + n, uva + len, uva, uva + len);
    OpenedJoin(s.mem, s1.mem, s2.mem, p, uva, n, len);
  }

  lemma OpenedJoin(m: Mem, m1: Mem, m2: Mem, p: int, uva: u32, n: int, len: int)
    requires UserPid(p) && UserRange(uva, len) && 0 < len && n == ChunkSize(uva, len)
    requires Opened(m, m1, p, Slots(uva, uva + n)) && Opened(m1, m2, p, Slots(uva + n, uva + len))
    ensures Opened(m, m2, p, Slots(uva, uva + len))
  {
    hide Opened, Slots, Met;
    OpenedTrans(m, m1, m2, p, Slots(uva, uva + n), Slots(uva + n, uva + len));
    OneSlot(uva, n);
    MetSplit(uva, n, uva + len);
  }

  // A write within bounds that reads kernel memory proper and finds the pages and tables it misses.
  ghost predicate CanWrite(s: Machine, p: int, uva: int, len: int, src: Source) {
    && Inv(s) && UserPid(p) && UserRange(uva, len) && SourceInRange(src, len) && SourceSafe(s, src, len)
    && Needs(s.mem, p, uva, len) <= |FreePages(s.pool.pmm)|
  }

  // A range of any length and alignment, with pages allocated on demand inside the loop: every byte
  // arrives, nothing else that was mapped changes, and exactly the missing pages and tables are taken.
  lemma {:induction false} WriteUserCorrect(s: Machine, p: int, uva: int, len: int, src: Source)
    requires CanWrite(s, p, uva, len, src) && PmmOk(s.pool.pmm)
    ensures Written(s, WriteUser(s, p, uva, len, src), p, uva, len, src, Needs(s.mem, p, uva, len))
    decreases len
  {
    hide PmmOk, Inv, WriteChunk, Written, Needs, FreePages, SourceSafe;
    if len == 0 {
      NoNeeds(s.mem, p, uva);
      WrittenNothing(s, p, uva, src);
    } else {
      var n := ChunkSize(uva, len);
      var s1 := WriteChunk(s, p, uva, n, src);
      WriteFirst(s, p, uva, n, len, src);
      InvPmm(s1);
      WriteUserCorrect(s1, p, uva + n, len - n, Advance(src, n));
      WrittenJoin(s, s1, WriteUser(s1, p, uva + n, len - n, Advance(src, n)), p, uva, n, len, src,
                  PageNeeds(s.mem, p, uva), Needs(s1.mem, p, uva + n, len - n));
    }
  }

  lemma WriteFirst(s: Machine, p: int, uva: int, n: int, len: int, src: Source)
    requires CanWrite(s, p, uva, len, src) && PmmOk(s.pool.pmm) && 0 < len && n == ChunkSize(uva, len)
    ensures var s1 := WriteChunk(s, p, uva, n, src);
      && Inv(s1) && SourceInRange(src, n) && Written(s, s1, p, uva, n, src, PageNeeds(s.mem, p, uva))
      && CanWrite(s1, p, uva + n, len - n, Advance(src, n))
      && Needs(s.mem, p, uva, len) == PageNeeds(s.mem, p, uva) + Needs(s1.mem, p, uva + n, len - n)
  {
    hide Inv, PmmOk, WriteChunk, PageNeeds, Needs, SourceSafe, OnePage, Confined, Holds, FreePages, Opened, Ledger;
    SafePrefix(s, src, n, len);
    FirstNeed(s.mem, p, uva, len);
    WriteChunkCorrect(s, p, uva, n, src);
    var s1 := WriteChunk(s, p, uva, n, src);
    NeedsStep(s.mem, s1.mem, p, uva, n, len);
    SafeRest(s, s1, p, uva, n, len, src);
  }

  lemma FirstNeed(m: Mem, p: int, uva: int, len: int)
    requires UserPid(p) && UserRange(uva, len) && 0 < len
    ensures PageNeeds(m, p, uva) <= Needs(m, p, uva, len)
  {
    hide Mapped, Pde, Present, Met, Slots, PdeIdx;
    var n := ChunkSize(uva, len);
    MetSplit(uva, n, uva + len);
    AddressParts(uva);
    SamePageMapped(m, p, uva);
    SubsetSize(Unmapped(m, p, {uva / 4096}), Unmapped(m, p, Met(uva, uva + len)));
    SubsetSize(Absent(m, p, {PdeIdx(uva)}), Absent(m, p, Slots(uva, uva + len)));
    OneAbsent(m, p, PdeIdx(uva));
    assert Unmapped(m, p, {uva / 4096}) == if Mapped(m, p, uva) then {} else {uva / 4096};
  }

  lemma SubsetSize(a: set<int>, b: set<int>)
    requires a <= b
    ensures |a| <= |b|
  {
    assert b == a + (b - a);
  }

  lemma SafeRest(s: Machine, s1: Machine, p: int, uva: int, n: int, len: int, src: Source)
    requires UserPid(p) && 0 <= n <= len && SourceInRange(src, len) && SourceSafe(s, src, len)
    requires Confined(s, s1, p, uva, uva + n)
    ensures SourceSafe(s1, Advance(src, n), len - n)
  {
    hide KernelByte, KeepsLookups, KeepsBytes, MapsOnly;
    if src.Kernel? {
      StillSafe(s, s1, src.kva, len);
    }
  }

  lemma SafePrefix(s: Machine, src: Source, n: int, len: int)
    requires 0 <= n <= len && SourceInRange(src, len) && SourceSafe(s, src, len)
    ensures SourceInRange(src, n) && SourceSafe(s, src, n)
  {
  }

  /* ----- pt_copyin ----- */

  // Kernel memory outside [lo, hi) is kept.
  ghost predicate KeepsKernelBut(s: Machine, s': Machine, lo: int, hi: int) {
    SamePerms(s, s') && forall a :: KernelByte(s, a) && !(lo <= a < hi) ==> s'.mem[a] == s.mem[a]
  }

  // A read changes no byte of any process and no kernel byte outside its buffer.
  ghost predicate Quiet(s: Machine, s': Machine, p: int, uva: int, n: int, kva: int) {
    && KeepsLookups(s.mem, s'.mem) && KeepsBytes(s.mem, s'.mem, p, 0, 0)
    && MapsOnly(s.mem, s'.mem, p, uva, uva + n) && NewFlags(s.mem, s'.mem) && KeepsKernelBut(s, s', kva, kva + n)
  }

  // The buffer holds what the process sees.
  ghost predicate Delivered(m': Mem, p: int, uva: int, n: int, kva: int)
    requires Pid(p) && 0 <= uva && uva + n < MEM_SIZE && 0 <= kva && kva + n <= MEM_SIZE
  {
    forall vb: u32 :: uva <= vb < uva + n ==> Mapped(m', p, vb) && m'[kva + (vb - uva)] == UserByte(m', p, vb)
  }

  ghost predicate ReadDone(s: Machine, s': Machine, p: int, uva: int, n: int, kva: int, cost: int)
    requires Pid(p) && 0 <= uva && uva + n < MEM_SIZE && 0 <= kva && kva + n <= MEM_SIZE
  {
    Inv(s') && Took(s.pool, s'.pool, p, cost) && Quiet(s, s', p, uva, n, kva) && Delivered(s'.mem, p, uva, n, kva)
  }

  // A write into kernel memory proper changes no translation and no user byte.
  lemma KernelWrite(s: Machine, m': Mem, kva: int, n: int)
    requires Inv(s) && KernelBuffer(s, kva, n)
    requires forall a :: 0 <= a < MEM_SIZE && !(kva <= a < kva + n) ==> m'[a] == s.mem[a]
    ensures Inv(s.(mem := m')) && SameEntries(s.mem, m')
    ensures forall q, vb: u32 :: UserPid(q) && UserVa(vb) && Mapped(s.mem, q, vb) ==>
      UserByte(m', q, vb) == UserByte(s.mem, q, vb)
  {
    hide Lookup, TableByte, TablesOk, KernelByte, PmmOk, Backed, EntryOf;
    forall a | 0 <= a < MEM_SIZE && TableByte(s.mem, a)
      ensures m'[a] == s.mem[a]
    {
      if kva <= a < kva + n {
        KernelOutside(s, a);
      }
    }
    DataWrite(s.mem, m');
    BackedSame(s, m');
    forall q, vb: u32 | UserPid(q) && UserVa(vb) && Mapped(s.mem, q, vb)
      ensures UserByte(m', q, vb) == UserByte(s.mem, q, vb)
    {
      SameEntriesLookup(s.mem, m', q, vb);
      UserNotKernel(s, q, vb);
    }
  }

  lemma UserNotKernel(s: Machine, q: int, vb: u32)
    requires Inv(s) && UserPid(q) && UserVa(vb) && Mapped(s.mem, q, vb)
    ensures !KernelByte(s, Phys(s.mem, q, vb))
  {
    MappedFrame(s, q, vb);
    hide Lookup, TablesOk, Backed, Live, FrameOf, OutsideTables;
  }

  lemma KernelWriteQuiet(s: Machine, m': Mem, p: int, uva: u32, n: int, kva: int)
    requires Inv(s) && KernelBuffer(s, kva, n) && UserPid(p)
    requires forall a :: 0 <= a < MEM_SIZE && !(kva <= a < kva + n) ==> m'[a] == s.mem[a]
    ensures Inv(s.(mem := m')) && SameEntries(s.mem, m') && Quiet(s, s.(mem := m'), p, uva, n, kva)
  {
    hide Inv, Lookup, Phys, SameEntries, KernelBuffer;
    KernelWrite(s, m', kva, n);
    forall q, vb: u32 | UserPid(q) && UserVa(vb)
      ensures Lookup(m', q, vb) == Lookup(s.mem, q, vb)
    {
      SameEntriesLookup(s.mem, m', q, vb);
    }
  }

  lemma QuietTrans(s: Machine, s1: Machine, s2: Machine, p: int, u1: int, n1: int, k1: int, u2: int, n2: int,
      k2: int, uva: int, n: int, kva: int)
    requires Quiet(s, s1, p, u1, n1, k1) && Quiet(s1, s2, p, u2, n2, k2)
    requires 0 <= uva <= u1 && u1 + n1 <= uva + n && uva <= u2 && u2 + n2 <= uva + n
    requires kva <= k1 && k1 + n1 <= kva + n && kva <= k2 && k2 + n2 <= kva + n
    ensures Quiet(s, s2, p, uva, n, kva)
  {
    hide Lookup, Phys, StaticByte;
  }

  lemma ConfinedQuiet(s: Machine, s1: Machine, p: int, uva: int, n: int, kva: int)
    requires Confined(s, s1, p, uva, uva + n) && KeepsBytes(s.mem, s1.mem, p, 0, 0)
    ensures Quiet(s, s1, p, uva, n, kva)
  {
    hide Lookup, Phys, KernelByte;
  }

  lemma CopiedAt(m: Mem, kva: int, pa: int, n: int, i: int)
    requires 0 <= i < n && 0 <= kva && kva + n <= MEM_SIZE && 0 <= pa && pa + n <= MEM_SIZE
    ensures CopyBytes(m, kva, pa, n)[kva + i] == m[pa + i]
  {
  }

  lemma CopiedByte(m: Mem, p: int, uva: u32, n: int, kva: int, vb: u32)
    requires UserPid(p) && UserRange(uva, n) && 0 < n <= 4096 - uva % 4096 && 0 <= kva && kva + n <= MEM_SIZE
    requires uva <= vb < uva + n
    requires SameEntries(m, CopyBytes(m, kva, Phys(m, p, uva), n)) && Mapped(m, p, uva)
    requires Mapped(m, p, vb) ==> UserByte(CopyBytes(m, kva, Phys(m, p, uva), n), p, vb) == UserByte(m, p, vb)
    ensures var m' := CopyBytes(m, kva, Phys(m, p, uva), n);
      Mapped(m', p, vb) && m'[kva + (vb - uva)] == UserByte(m', p, vb)
  {
    hide CopyBytes, Lookup, Phys, SameEntries;
    CopiedAt(m, kva, Phys(m, p, uva), n, vb - uva);
    InSamePage(uva, vb - uva);
    SamePageLookup(m, p, uva, vb);
    SamePhys(m, m, p, uva, vb - uva);
    SameEntriesLookup(m, CopyBytes(m, kva, Phys(m, p, uva), n), p, vb);
  }

  lemma CopyKeepsRest(m: Mem, kva: int, pa: int, n: int)
    requires 0 <= n && 0 <= kva && kva + n <= MEM_SIZE && 0 <= pa && pa + n <= MEM_SIZE
    ensures forall a :: 0 <= a < MEM_SIZE && !(kva <= a < kva + n) ==> CopyBytes(m, kva, pa, n)[a] == m[a]
  {
    CopyBytesEffect(m, kva, pa, n);
  }

  lemma ReadDelivers(s: Machine, p: int, uva: u32, kva: int, n: int)
    requires Inv(s) && UserPid(p) && UserVa(uva) && UserRange(uva, n) && 0 < n <= 4096 - uva % 4096
    requires KernelBuffer(s, kva, n) && Mapped(s.mem, p, uva)
    ensures var m' := CopyBytes(s.mem, kva, Phys(s.mem, p, uva), n);
      && Inv(s.(mem := m')) && SameEntries(s.mem, m') && Delivered(m', p, uva, n, kva)
      && Quiet(s, s.(mem := m'), p, uva, n, kva)
  {
    hide Inv, CopyBytes, Lookup, Phys, KernelByte, Quiet, Mapped, UserByte, SameEntries;
    var m' := CopyBytes(s.mem, kva, Phys(s.mem, p, uva), n);
    CopyKeepsRest(s.mem, kva, Phys(s.mem, p, uva), n);
    KernelWrite(s, m', kva, n);
    KernelWriteQuiet(s, m', p, uva, n, kva);
    forall vb: u32 | uva <= vb < uva + n
      ensures Mapped(m', p, vb) && m'[kva + (vb - uva)] == UserByte(m', p, vb)
    {
      CopiedByte(s.mem, p, uva, n, kva, vb);
    }
  }

  lemma ReadChunkCorrect(s: Machine, p: int, uva: u32, kva: int, n: int)
    requires Inv(s) && UserPid(p) && UserVa(uva) && UserRange(uva, n) && 0 < n <= 4096 - uva % 4096 && PmmOk(s.pool.pmm)
    requires KernelBuffer(s, kva, n) && PageNeeds(s.mem, p, uva) <= |FreePages(s.pool.pmm)|
    ensures var s' := ReadChunk(s, p, uva, kva, n);
      ReadDone(s, s', p, uva, n, kva, PageNeeds(s.mem, p, uva)) && OnePage(s.mem, s'.mem, p, uva)
  {
    hide Inv, PmmOk, Touch, CopyBytes, Lookup, Phys, KernelByte, Confined, KeepsBytes, Took, PageNeeds, Quiet;
    hide OnePage, FreePages, ReadDone;
    var s1 := Touch(s, p, uva);
    TouchCorrect(s, p, uva, n);
    ConfinedQuiet(s, s1, p, uva, n, kva);
    BufferStays(s, s1, p, uva, n, kva);
    ReadTail(s, s1, p, uva, kva, n, PageNeeds(s.mem, p, uva));
  }

  lemma BufferStays(s: Machine, s1: Machine, p: int, uva: int, n: int, kva: int)
    requires Confined(s, s1, p, uva, uva + n) && KernelBuffer(s, kva, n)
    ensures KernelBuffer(s1, kva, n)
  {
    hide KernelByte, KeepsBytes, KeepsLookups, MapsOnly;
    StillSafe(s, s1, kva, n);
  }

  lemma ReadTail(s: Machine, s1: Machine, p: int, uva: u32, kva: int, n: int, cost: int)
    requires Inv(s1) && UserPid(p) && UserVa(uva) && UserRange(uva, n) && 0 < n <= 4096 - uva % 4096
    requires KernelBuffer(s1, kva, n)
    requires OnePage(s.mem, s1.mem, p, uva) && Quiet(s, s1, p, uva, n, kva) && Took(s.pool, s1.pool, p, cost)
    ensures var s' := s1.(mem := CopyBytes(s1.mem, kva, Phys(s1.mem, p, uva), n));
      ReadDone(s, s', p, uva, n, kva, cost) && OnePage(s.mem, s'.mem, p, uva)
  {
    hide Inv, CopyBytes, Lookup, Phys, KernelByte, Quiet, Took, Mapped, Delivered, Opened, SameEntries;
    var m' := CopyBytes(s1.mem, kva, Phys(s1.mem, p, uva), n);
    ReadDelivers(s1, p, uva, kva, n);
    QuietTrans(s, s1, s1.(mem := m'), p, uva, n, kva, uva, n, kva, uva, n, kva);
    SameEntriesOnePage(s.mem, s1.mem, m', p, uva);
  }

  /* the loop */

  ghost predicate CanRead(s: Machine, p: int, uva: int, kva: int, len: int) {
    && Inv(s) && UserPid(p) && UserRange(uva, len) && KernelBuffer(s, kva, len)
    && Needs(s.mem, p, uva, len) <= |FreePages(s.pool.pmm)|
  }

  lemma {:induction false} ReadUserCorrect(s: Machine, p: int, uva: int, kva: int, len: int)
    requires CanRead(s, p, uva, kva, len) && PmmOk(s.pool.pmm)
    ensures ReadDone(s, ReadUser(s, p, uva, kva, len), p, uva, len, kva, Needs(s.mem, p, uva, len))
    decreases len
  {
    hide PmmOk, Inv, ReadChunk, ReadDone, Needs, FreePages, KernelByte;
    if len == 0 {
      ReadNothing(s, p, uva, kva);
    } else {
      var n := ChunkSize(uva, len);
      var s1 := ReadChunk(s, p, uva, kva, n);
      ReadFirst(s, p, uva, kva, n, len);
      InvPmm(s1);
      ReadUserCorrect(s1, p, uva + n, kva + n, len - n);
      ReadJoin(s, s1, ReadUser(s1, p, uva + n, kva + n, len - n), p, uva, kva, n, len,
               PageNeeds(s.mem, p, uva), Needs(s1.mem, p, uva + n, len - n));
    }
  }

  lemma ReadNothing(s: Machine, p: int, uva: int, kva: int)
    requires Inv(s) && UserPid(p) && 0 <= uva < MEM_SIZE && 0 <= kva <= MEM_SIZE
    ensures ReadDone(s, s, p, uva, 0, kva, Needs(s.mem, p, uva, 0))
  {
    hide Inv, Took, Lookup, Phys, KernelByte, Needs;
    NoNeeds(s.mem, p, uva);
    TookNothing(s.pool, p);
  }

  lemma ReadFirst(s: Machine, p: int, uva: int, kva: int, n: int, len: int)
    requires CanRead(s, p, uva, kva, len) && PmmOk(s.pool.pmm) && 0 < len && n == ChunkSize(uva, len)
    ensures var s1 := ReadChunk(s, p, uva, kva, n);
      && Inv(s1) && ReadDone(s, s1, p, uva, n, kva, PageNeeds(s.mem, p, uva))
      && CanRead(s1, p, uva + n, kva + n, len - n)
      && Needs(s.mem, p, uva, len) == PageNeeds(s.mem, p, uva) + Needs(s1.mem, p, uva + n, len - n)
  {
    hide Inv, PmmOk, ReadChunk, PageNeeds, Needs, KernelByte, OnePage, Delivered, FreePages, Ledger;
    hide KeepsLookups, KeepsBytes, MapsOnly;
    FirstNeed(s.mem, p, uva, len);
    ReadChunkCorrect(s, p, uva, kva, n);
    var s1 := ReadChunk(s, p, uva, kva, n);
    NeedsStep(s.mem, s1.mem, p, uva, n, len);
    SamePermsBuffer(s, s1, kva, n, len);
  }

  lemma ReadJoin(s: Machine, s1: Machine, s2: Machine, p: int, uva: int, kva: int, n: int, len: int, c: nat, c': nat)
    requires UserPid(p) && UserRange(uva, len) && 0 <= kva && kva + len <= MEM_SIZE && 0 < n <= len
    requires KernelBuffer(s, kva, len)
    requires ReadDone(s, s1, p, uva, n, kva, c) && ReadDone(s1, s2, p, uva + n, len - n, kva + n, c')
    ensures ReadDone(s, s2, p, uva, len, kva, c + c')
  {
    hide Inv, Quiet, Took, Delivered, KernelBuffer;
    TookTrans(s.pool, s1.pool, s2.pool, p, c, c');
    DeliveredJoin(s, s1, s2, p, uva, kva, n, len);
    QuietTrans(s, s1, s2, p, uva, n, kva, uva + n, len - n, kva + n, uva, len, kva);
  }

  lemma SamePermsBuffer(s: Machine, s1: Machine, kva: int, n: int, len: int)
    requires KernelBuffer(s, kva, len) && SamePerms(s, s1) && 0 <= n <= len
    ensures KernelBuffer(s1, kva + n, len - n)
  {
    hide StaticByte;
    forall i | kva + n <= i < kva + len
      ensures KernelByte(s1, i)
    {
      assert KernelByte(s, i) && Page(i / 4096);
    }
  }

  lemma DeliveredJoin(s: Machine, s1: Machine, s2: Machine, p: int, uva: int, kva: int, n: int, len: int)
    requires UserPid(p) && UserRange(uva, len) && 0 <= kva && kva + len <= MEM_SIZE && 0 < n <= len
    requires KernelBuffer(s, kva, len)
    requires Quiet(s, s1, p, uva, n, kva) && Delivered(s1.mem, p, uva, n, kva)
    requires Quiet(s1, s2, p, uva + n, len - n, kva + n) && Delivered(s2.mem, p, uva + n, len - n, kva + n)
    ensures Delivered(s2.mem, p, uva, len, kva)
  {
    SamePermsBuffer(s, s1, kva, 0, len);
    hide Lookup, Phys, KernelByte, UserByte;
    forall vb: u32 | uva <= vb < uva + len
      ensures Mapped(s2.mem, p, vb) && s2.mem[kva + (vb - uva)] == UserByte(s2.mem, p, vb)
    {
      if vb < uva + n {
        assert Mapped(s1.mem, p, vb) && KernelByte(s1, kva + (vb - uva));
      }
    }
  }

  /* ----- translations afterwards ----- */

  // An address that was mapped translates as before; one that was not is not mapped now, or is so writable,
  // for the user, and not globally.
  lemma NewTranslation(s: Machine, s': Machine, p: int, w: u32)
    requires Inv(s) && Inv(s') && UserPid(p) && UserVa(w) && KeepsLookups(s.mem, s'.mem) && NewFlags(s.mem, s'.mem)
    ensures Mapped(s.mem, p, w) ==> Mmu(s'.mem, p, w) == Mmu(s.mem, p, w)
    ensures !Mapped(s.mem, p, w) && !Mapped(s'.mem, p, w) ==> Mmu(s'.mem, p, w) == Miss
    ensures !Mapped(s.mem, p, w) && Mapped(s'.mem, p, w) ==>
      Mmu(s'.mem, p, w) == Hit(Phys(s'.mem, p, w), true, true, false)
  {
    hide Mmu, Lookup, Backed, Separated, InUserFrames, KernelHalf, PmmOk, UserDirs;
    UserTranslation(s.mem, p, w);
    UserTranslation(s'.mem, p, w);
    var e := Lookup(s'.mem, p, w);
    if e % 4096 == 7 {
      FlagBits(e, e / 4096, 7);
    }
  }

  /* ----- the round trip ----- */

  // After pt_copyout the range can be read back without any allocation.
  lemma ReadableAfterWrite(s: Machine, s1: Machine, p: int, uva: int, len: int, src: Source, kva2: int, cost: int)
    requires UserPid(p) && UserRange(uva, len) && SourceInRange(src, len) && KernelBuffer(s, kva2, len)
    requires Written(s, s1, p, uva, len, src, cost)
    ensures CanRead(s1, p, uva, kva2, len) && Needs(s1.mem, p, uva, len) == 0
  {
    hide Inv, Took, Mapped, KernelByte, KeepsLookups, KeepsBytes, MapsOnly, SrcByte, Needs, Opened, FreePages;
    StillSafe(s, s1, kva2, len);
    MappedNeedsNothing(s1.mem, p, uva, len);
  }

  // pt_copyout then pt_copyin of the same user range: both report the full length, the bytes come back
  // unchanged, and the second call allocates nothing.
  lemma {:induction false} CopyRoundTrip(s: Machine, kva: u32, p: int, uva: u32, len: u32, kva2: u32)
    requires CanWrite(s, p, uva, len, Kernel(kva)) && PmmOk(s.pool.pmm)
    requires KernelBuffer(s, kva2, len) && kva + len <= VM_USERHI && kva2 + len <= VM_USERHI
    ensures var (s1, n1) := PtCopyout(s, kva, p, uva, len);
      && var (s2, n2) := PtCopyin(s1, p, uva, kva2, len);
      && n1 == len == n2
      && Written(s, s1, p, uva, len, Kernel(kva), Needs(s.mem, p, uva, len)) && ReadDone(s1, s2, p, uva, len, kva2, 0)
      && s2.mem[kva2..kva2 + len] == s.mem[kva..kva + len]
  {
    hide WriteUser, ReadUser, Written, ReadDone, Needs, PmmOk, Inv, FreePages, KernelBuffer;
    WriteUserCorrect(s, p, uva, len, Kernel(kva));
    var s1 := PtCopyout(s, kva, p, uva, len).0;
    ReadableAfterWrite(s, s1, p, uva, len, Kernel(kva), kva2, Needs(s.mem, p, uva, len));
    InvPmm(s1);
    ReadUserCorrect(s1, p, uva, kva2, len);
    RoundTripBytes(s, s1, PtCopyin(s1, p, uva, kva2, len).0, kva, p, uva, len, kva2, Needs(s.mem, p, uva, len), 0);
  }

  lemma RoundTripBytes(s: Machine, s1: Machine, s2: Machine, kva: u32, p: int, uva: u32, len: u32, kva2: u32,
      c: int, c': int)
    requires UserPid(p) && UserRange(uva, len) && kva + len <= VM_USERHI && kva2 + len <= VM_USERHI
    requires Written(s, s1, p, uva, len, Kernel(kva), c) && ReadDone(s1, s2, p, uva, len, kva2, c')
    ensures s2.mem[kva2..kva2 + len] == s.mem[kva..kva + len]
  {
    hide Inv, Took, Opened, Lookup, Phys, Mapped, KernelByte;
    var got, sent := s2.mem[kva2..kva2 + len], s.mem[kva..kva + len];
    forall i | 0 <= i < len
      ensures got[i] == sent[i]
    {
      var vb: u32 := uva + i;
      assert Mapped(s1.mem, p, vb) && UserByte(s1.mem, p, vb) == SrcByte(s.mem, Kernel(kva), i);
      assert s2.mem[kva2 + (vb - uva)] == UserByte(s2.mem, p, vb);
    }
  }
}
