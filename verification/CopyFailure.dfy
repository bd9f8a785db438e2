// The copies of pmap.c when memory runs out: a failed allocation goes unnoticed, the chunk goes to (or
// comes from) physical page 0, and success is reported. What still holds then, and exactly when the bytes
// do arrive.
module CopyFailure {
  import opened Words
  import opened PageAllocator
  import opened Containers
  import opened PageTables
  import opened PageMaps
  import opened Quota
  import opened Budget
  import opened UserCopy

  // Where accounts were kept for p they still are.
  ghost predicate KeepsAccounts(a: Pool, b: Pool, p: int)
    requires Id(p)
  { Ledger(a) && a.cs[p].used == 1 ==> Ledger(b) && b.cs[p].used == 1 }

  lemma TookAccounts(a: Pool, b: Pool, p: int, n: int)
    requires Id(p) && Took(a, b, p, n)
    ensures KeepsAccounts(a, b, p)
  {
    hide Ledger, FreePages;
  }

  // Free pages only become fewer. With one left no table can be added, with none no entry changes.
  ghost predicate Scarce(s: Machine, s': Machine, p: int)
    requires Pid(p)
  {
    && |FreePages(s'.pool.pmm)| <= |FreePages(s.pool.pmm)|
    && (|FreePages(s.pool.pmm)| <= 1 ==>
         forall d :: UserPde(d) && Present(Pde(s'.mem, p, d)) ==> Present(Pde(s.mem, p, d)))
    && (|FreePages(s.pool.pmm)| == 0 ==>
         forall v :: UserPage(v) ==> Lookup(s'.mem, p, 4096 * v) == Lookup(s.mem, p, 4096 * v))
  }

  lemma ScarceTrans(s: Machine, s1: Machine, s2: Machine, p: int)
    requires Pid(p) && Scarce(s, s1, p) && Scarce(s1, s2, p)
    ensures Scarce(s, s2, p)
  {
    hide Pde, Lookup, FreePages;
  }

  lemma TookScarce(s: Machine, s1: Machine, p: int, va: u32)
    requires UserPid(p) && UserVa(va) && OnePage(s.mem, s1.mem, p, va)
    requires |FreePages(s1.pool.pmm)| <= |FreePages(s.pool.pmm)| - PageNeeds(s.mem, p, va)
    requires FreePages(s.pool.pmm) != {} || KeepsLookups(s.mem, s1.mem)
    ensures Scarce(s, s1, p)
  {
    hide Pde, Lookup, FreePages, PdeIdx, Present;
    SamePageMapped(s.mem, p, va);
    if Mapped(s.mem, p, va) {
      MappedTable(s.mem, p, va);
    }
  }

  lemma SameScarce(s: Machine, s1: Machine, p: int)
    requires UserPid(p) && |FreePages(s1.pool.pmm)| == |FreePages(s.pool.pmm)| && SameEntries(s.mem, s1.mem)
    ensures Scarce(s, s1, p)
  {
    hide FreePages, Lookup, PdeIdx, PteIdx;
    forall v | UserPage(v)
      ensures Lookup(s1.mem, p, 4096 * v) == Lookup(s.mem, p, 4096 * v)
    {
      SameEntriesLookup(s.mem, s1.mem, p, 4096 * v);
    }
    forall d | UserPde(d)
      ensures Pde(s1.mem, p, d) == Pde(s.mem, p, d)
    {
      assert EntryOf(s1.mem, Table(p, d)) == EntryOf(s.mem, Table(p, d));
    }
  }

  // No mapping is lost, none appears outside the range, no process sees another byte change, and of the
  // kernel's own memory at most page 0 is overwritten.
  ghost predicate Harmless(s: Machine, s': Machine, p: int, lo: int, hi: int)
    requires Pid(p)
  {
    && Inv(s') && KeepsAccounts(s.pool, s'.pool, p) && Scarce(s, s', p)
    && KeepsLookups(s.mem, s'.mem) && KeepsBytes(s.mem, s'.mem, p, lo, hi) && MapsOnly(s.mem, s'.mem, p, lo, hi)
    && NewFlags(s.mem, s'.mem)
    && KeepsKernelBut(s, s', 0, 4096)
  }

  lemma HarmlessTrans(s: Machine, s1: Machine, s2: Machine, p: int, lo: int, mid: int, hi: int)
    requires Pid(p) && 0 <= lo <= mid <= hi && Harmless(s, s1, p, lo, mid) && Harmless(s1, s2, p, mid, hi)
    ensures Harmless(s, s2, p, lo, hi)
  {
    hide Inv, Ledger, Lookup, Phys, StaticByte, Scarce;
    ScarceTrans(s, s1, s2, p);
  }

  lemma ConfinedHarmless(s: Machine, s': Machine, p: int, lo: int, hi: int)
    requires Pid(p) && Inv(s') && KeepsAccounts(s.pool, s'.pool, p) && Scarce(s, s', p) && Confined(s, s', p, lo, hi)
    ensures Harmless(s, s', p, lo, hi)
  {
    hide Inv, Scarce, KeepsAccounts, KeepsLookups, KeepsBytes, MapsOnly, KernelByte;
  }

  lemma HarmlessRefl(s: Machine, p: int, lo: int, hi: int)
    requires Inv(s) && Pid(p)
    ensures Harmless(s, s, p, lo, hi)
  {
    hide Inv, Ledger, Lookup, Phys, KernelByte, Pde, FreePages;
  }

  /* ----- a failed allocation ----- */

  lemma TouchFails(s: Machine, p: int, uva: u32)
    requires Inv(s) && UserPid(p) && UserVa(uva) && PageNeeds(s.mem, p, uva) > |FreePages(s.pool.pmm)|
    requires PmmOk(s.pool.pmm)
    ensures var s1 := Touch(s, p, uva);
      && s1.mem == s.mem && !Mapped(s.mem, p, uva) && Inv(s1) && SamePerms(s, s1)
      && KeepsAccounts(s.pool, s1.pool, p) && FreePages(s1.pool.pmm) == FreePages(s.pool.pmm)
  {
    hide Inv, Ledger, FreePages, AllocPage, Lookup, Pde, PmmOk, SamePerms;
    PresentLookup(s.mem, p, uva);
    if Mapped(s.mem, p, uva) {
      MappedTable(s.mem, p, uva);
      assert false;
    }
    AllocPageIff(s, p, uva, USER_RW);
    AllocPageInv(s, p, uva, USER_RW);
    AllocPageFails(s, p, uva, USER_RW);
    SameFree(s.pool.pmm, AllocPage(s, p, uva, USER_RW).0.pool.pmm);
    AllocPagePerms(s, p, uva, USER_RW);
    FailedAccounts(s, p, uva, USER_RW);
  }

  lemma SameFree(a: Pmm, b: Pmm)
    requires b == a.(cursor := b.cursor)
    ensures FreePages(b) == FreePages(a)
  {
  }

  lemma FailedAccounts(s: Machine, p: int, va: u32, perm: int)
    requires Inv(s) && UserPid(p) && UserVa(va) && 0 <= perm < 4096 && PmmOk(s.pool.pmm)
    requires AllocPage(s, p, va, perm).1 == MAGIC_NUMBER
    ensures KeepsAccounts(s.pool, AllocPage(s, p, va, perm).0.pool, p)
  {
    hide Inv, Ledger, FreePages, AllocPage, Cost, PmmOk, Alloc;
    if Ledger(s.pool) && s.pool.cs[p].used == 1 {
      AllocPageLedger(s, p, va, perm);
      FailedUsed(s, p, va, perm);
    }
  }

  lemma FailedUsed(s: Machine, p: int, va: u32, perm: int)
    requires Inv(s) && UserPid(p) && UserVa(va) && 0 <= perm < 4096 && PmmOk(s.pool.pmm)
    requires AllocPage(s, p, va, perm).1 == MAGIC_NUMBER
    ensures AllocPage(s, p, va, perm).0.pool.cs[p].used == s.pool.cs[p].used
  {
    PallocFirstFit(s.pool.pmm);
    PallocFirstFit(Palloc(s.pool.pmm).0);
    hide Palloc, Inv, Pde, SetPte, InstallTable, ToI32;
  }

  // The chunk lands in physical page 0, at the offset of the user address.
  lemma ZeroFrame(m: Mem, p: int, uva: u32)
    requires Pid(p) && !Mapped(m, p, uva)
    ensures Phys(m, p, uva) == uva % 4096
  {
    hide Pte;
  }

  lemma PageZero(s: Machine, a: int, n: int)
    requires PmmOk(s.pool.pmm) && 0 <= a && 0 <= n && a + n <= 4096
    ensures KernelBuffer(s, a, n)
  {
    forall i | a <= i < a + n
      ensures KernelByte(s, i)
    {
      assert !UserPage(i / 4096);
    }
  }

  /* ----- one chunk, whatever happens ----- */

  lemma WriteChunkHarmless(s: Machine, p: int, uva: u32, n: int, src: Source)
    requires Inv(s) && UserPid(p) && UserRange(uva, n) && 0 < n <= 4096 - uva % 4096 && SourceInRange(src, n)
    requires PmmOk(s.pool.pmm)
    ensures Harmless(s, WriteChunk(s, p, uva, n, src), p, uva, uva + n)
    ensures PageNeeds(s.mem, p, uva) > |FreePages(s.pool.pmm)| ==>
      var s' := WriteChunk(s, p, uva, n, src); !Mapped(s'.mem, p, uva) && s'.mem == PutChunk(s.mem, uva % 4096, src, n)
  {
    hide Inv, PmmOk, Touch, PutChunk, Lookup, Phys, Confined, Took, OnePage, FreePages, PageNeeds, Harmless;
    hide SamePerms, KeepsAccounts, SameEntries;
    if PageNeeds(s.mem, p, uva) <= |FreePages(s.pool.pmm)| {
      TouchCorrect(s, p, uva, n);
      GoodChunk(s, Touch(s, p, uva), p, uva, n, src);
    } else {
      TouchFails(s, p, uva);
      LostChunk(s, Touch(s, p, uva), p, uva, n, src);
    }
  }

  lemma ConfinedLookups(s: Machine, s1: Machine, p: int, lo: int, hi: int)
    requires Confined(s, s1, p, lo, hi)
    ensures KeepsLookups(s.mem, s1.mem)
  {
  }

  lemma GoodChunk(s: Machine, s1: Machine, p: int, uva: u32, n: int, src: Source)
    requires Inv(s1) && UserPid(p) && UserRange(uva, n) && 0 < n <= 4096 - uva % 4096 && SourceInRange(src, n)
    requires Took(s.pool, s1.pool, p, PageNeeds(s.mem, p, uva)) && OnePage(s.mem, s1.mem, p, uva)
    requires Confined(s, s1, p, uva, uva + n)
    ensures Harmless(s, s1.(mem := PutChunk(s1.mem, Phys(s1.mem, p, uva), src, n)), p, uva, uva + n)
  {
    hide Inv, Ledger, FreePages, PutChunk, Lookup, Phys, Confined, SameEntries, Mapped, Opened, PageNeeds;
    hide Harmless, KeepsAccounts, Scarce;
    var s2 := s1.(mem := PutChunk(s1.mem, Phys(s1.mem, p, uva), src, n));
    PutConfined(s1, p, uva, n, src);
    ConfinedTrans(s, s1, s2, p, uva, uva + n, uva, uva + n, uva, uva + n);
    TookAccounts(s.pool, s1.pool, p, PageNeeds(s.mem, p, uva));
    ConfinedLookups(s, s1, p, uva, uva + n);
    TookScarce(s, s1, p, uva);
    SameScarce(s1, s2, p);
    ScarceTrans(s, s1, s2, p);
    ConfinedHarmless(s, s2, p, uva, uva + n);
  }

  lemma LostChunk(s: Machine, s1: Machine, p: int, uva: u32, n: int, src: Source)
    requires UserPid(p) && UserRange(uva, n) && 0 < n <= 4096 - uva % 4096 && SourceInRange(src, n)
    requires Inv(s1) && s1.mem == s.mem && SamePerms(s, s1) && KeepsAccounts(s.pool, s1.pool, p)
    requires FreePages(s1.pool.pmm) == FreePages(s.pool.pmm) && !Mapped(s.mem, p, uva)
    ensures var s' := s1.(mem := PutChunk(s1.mem, Phys(s1.mem, p, uva), src, n));
      Harmless(s, s', p, uva, uva + n) && !Mapped(s'.mem, p, uva) && s'.mem == PutChunk(s.mem, uva % 4096, src, n)
  {
    hide Inv, PutChunk, Lookup, SameEntries, KeepsAccounts, KernelBuffer, SamePerms, PmmOk, Scarce, FreePages;
    InvPmm(s1);
    ZeroFrame(s.mem, p, uva);
    PageZero(s1, uva % 4096, n);
    var m' := PutChunk(s1.mem, uva % 4096, src, n);
    PutRest(s1.mem, uva % 4096, src, n);
    KernelWriteQuiet(s1, m', p, uva, n, uva % 4096);
    SameEntriesLookup(s1.mem, m', p, uva);
    SameScarce(s, s1.(mem := m'), p);
    LostHarmless(s, s1, s1.(mem := m'), p, uva, n);
  }

  lemma PutRest(m: Mem, pa: int, src: Source, n: int)
    requires 0 <= n && 0 <= pa && pa + n <= MEM_SIZE && SourceInRange(src, n)
    ensures forall a :: 0 <= a < MEM_SIZE && !(pa <= a < pa + n) ==> PutChunk(m, pa, src, n)[a] == m[a]
  {
    PutEffect(m, pa, src, n);
  }

  lemma LostHarmless(s: Machine, s1: Machine, s2: Machine, p: int, uva: u32, n: int)
    requires Pid(p) && 0 < n <= 4096 - uva % 4096 && s1.mem == s.mem && SamePerms(s, s1)
    requires KeepsAccounts(s.pool, s1.pool, p)
    requires Inv(s2) && s2.pool == s1.pool && Quiet(s1, s2, p, uva, n, uva % 4096) && Scarce(s, s2, p)
    ensures Harmless(s, s2, p, uva, uva + n)
  {
    hide Inv, Scarce, Ledger, Lookup, Phys, StaticByte;
  }

  /* ----- the loops, whatever happens ----- */

  lemma {:induction false} WriteUserHarmless(s: Machine, p: int, uva: int, len: int, src: Source)
    requires Inv(s) && UserPid(p) && UserRange(uva, len) && SourceInRange(src, len) && PmmOk(s.pool.pmm)
    ensures Harmless(s, WriteUser(s, p, uva, len, src), p, uva, uva + len)
    decreases len
  {
    hide Inv, PmmOk, WriteChunk, Harmless, PageNeeds, PutChunk, FreePages;
    if len == 0 {
      HarmlessRefl(s, p, uva, uva);
    } else {
      var n := ChunkSize(uva, len);
      WriteChunkHarmless(s, p, uva, n, src);
      var s1 := WriteChunk(s, p, uva, n, src);
      HarmlessInv(s, s1, p, uva, uva + n);
      WriteUserHarmless(s1, p, uva + n, len - n, Advance(src, n));
      HarmlessTrans(s, s1, WriteUser(s1, p, uva + n, len - n, Advance(src, n)), p, uva, uva + n, uva + len);
    }
  }

  lemma HarmlessInv(s: Machine, s': Machine, p: int, lo: int, hi: int)
    requires Pid(p) && Harmless(s, s', p, lo, hi)
    ensures Inv(s') && PmmOk(s'.pool.pmm)
  {
  }

  // When the pages are not there, some byte of the range is not even mapped afterwards.
  lemma {:induction false} WriteUserFails(s: Machine, p: int, uva: int, len: int, src: Source) returns (w: u32)
    requires Inv(s) && UserPid(p) && UserRange(uva, len) && SourceInRange(src, len) && PmmOk(s.pool.pmm)
    requires Needs(s.mem, p, uva, len) > |FreePages(s.pool.pmm)|
    ensures uva <= w < uva + len && !Mapped(WriteUser(s, p, uva, len, src).mem, p, w)
    decreases len
  {
    hide Inv, PmmOk, WriteChunk, PageNeeds, PutChunk, FreePages, Needs, Mapped, Harmless;
    NoNeeds(s.mem, p, uva);
    var n := ChunkSize(uva, len);
    var s1 := WriteChunk(s, p, uva, n, src);
    WriteChunkHarmless(s, p, uva, n, src);
    HarmlessInv(s, s1, p, uva, uva + n);
    var s' := WriteUser(s1, p, uva + n, len - n, Advance(src, n));
    if PageNeeds(s.mem, p, uva) > |FreePages(s.pool.pmm)| {
      WriteUserHarmless(s1, p, uva + n, len - n, Advance(src, n));
      StaysUnmapped(s1, s', p, uva, n, len);
      w := uva;
    } else {
      StillShort(s, p, uva, n, len, src);
      w := WriteUserFails(s1, p, uva + n, len - n, Advance(src, n));
    }
  }

  lemma StaysUnmapped(s1: Machine, s': Machine, p: int, uva: u32, n: int, len: int)
    requires UserPid(p) && UserRange(uva, len) && 0 < len && n == ChunkSize(uva, len) && !Mapped(s1.mem, p, uva)
    requires if n < len then Harmless(s1, s', p, uva + n, uva + len) else s' == s1
    ensures !Mapped(s'.mem, p, uva)
  {
    hide Inv, KeepsAccounts, KeepsLookups, KeepsBytes, KeepsKernelBut, Lookup;
    if n < len {
      NextBoundary(uva, n);
    }
  }

  // A successful first chunk leaves the rest as short of pages as the whole was.
  lemma StillShort(s: Machine, p: int, uva: u32, n: int, len: int, src: Source)
    requires Inv(s) && UserPid(p) && UserRange(uva, len) && 0 < len && n == ChunkSize(uva, len)
    requires SourceInRange(src, len)
    requires PmmOk(s.pool.pmm) && PageNeeds(s.mem, p, uva) <= |FreePages(s.pool.pmm)|
    requires Needs(s.mem, p, uva, len) > |FreePages(s.pool.pmm)|
    ensures var s1 := WriteChunk(s, p, uva, n, src); Needs(s1.mem, p, uva + n, len - n) > |FreePages(s1.pool.pmm)|
  {
    hide Inv, PmmOk, Touch, PageNeeds, PutChunk, FreePages, Needs, Mapped, Opened, Confined, Ledger, Phys;
    hide SameEntries, KeepsBytes;
    TouchCorrect(s, p, uva, n);
    var s1 := Touch(s, p, uva);
    PutConfined(s1, p, uva, n, src);
    SameEntriesOnePage(s.mem, s1.mem, PutChunk(s1.mem, Phys(s1.mem, p, uva), src, n), p, uva);
    NeedsStep(s.mem, PutChunk(s1.mem, Phys(s1.mem, p, uva), src, n), p, uva, n, len);
  }

  /* ----- pt_copyin ----- */

  ghost predicate HarmlessRead(s: Machine, s': Machine, p: int, uva: int, n: int, kva: int)
    requires Pid(p)
  { Inv(s') && KeepsAccounts(s.pool, s'.pool, p) && Quiet(s, s', p, uva, n, kva) }

  lemma ReadChunkHarmless(s: Machine, p: int, uva: u32, kva: int, n: int)
    requires Inv(s) && UserPid(p) && UserRange(uva, n) && 0 < n <= 4096 - uva % 4096 && KernelBuffer(s, kva, n)
    requires PmmOk(s.pool.pmm)
    ensures HarmlessRead(s, ReadChunk(s, p, uva, kva, n), p, uva, n, kva)
    ensures PageNeeds(s.mem, p, uva) > |FreePages(s.pool.pmm)| ==>
      var s' := ReadChunk(s, p, uva, kva, n); !Mapped(s'.mem, p, uva) && s'.mem == CopyBytes(s.mem, kva, uva % 4096, n)
    ensures PageNeeds(s.mem, p, uva) <= |FreePages(s.pool.pmm)| ==>
      var s' := ReadChunk(s, p, uva, kva, n);
      OnePage(s.mem, s'.mem, p, uva) && |FreePages(s'.pool.pmm)| == |FreePages(s.pool.pmm)| - PageNeeds(s.mem, p, uva)
  {
    hide Inv, PmmOk, Touch, ReadChunk, CopyBytes, Lookup, Phys, KernelByte, Quiet, OnePage, FreePages;
    hide PageNeeds, SamePerms, KeepsAccounts, Delivered, Ledger;
    if PageNeeds(s.mem, p, uva) <= |FreePages(s.pool.pmm)| {
      ReadChunkCorrect(s, p, uva, kva, n);
      TookAccounts(s.pool, ReadChunk(s, p, uva, kva, n).pool, p, PageNeeds(s.mem, p, uva));
    } else {
      TouchFails(s, p, uva);
      LostRead(s, Touch(s, p, uva), p, uva, kva, n);
      ReadChunkIs(s, p, uva, kva, n);
    }
  }

  lemma ReadChunkIs(s: Machine, p: int, uva: u32, kva: int, n: int)
    requires Pid(p) && PmmOk(s.pool.pmm) && 0 <= n <= 4096 - uva % 4096 && 0 <= kva && kva + n <= MEM_SIZE
    ensures var s1 := Touch(s, p, uva);
      ReadChunk(s, p, uva, kva, n) == s1.(mem := CopyBytes(s1.mem, kva, Phys(s1.mem, p, uva), n))
  {
    hide PmmOk, Touch, CopyBytes, Phys;
  }

  lemma LostRead(s: Machine, s1: Machine, p: int, uva: u32, kva: int, n: int)
    requires UserPid(p) && UserRange(uva, n) && 0 < n <= 4096 - uva % 4096 && KernelBuffer(s, kva, n)
    requires Inv(s1) && s1.mem == s.mem && SamePerms(s, s1) && KeepsAccounts(s.pool, s1.pool, p)
    requires !Mapped(s.mem, p, uva)
    ensures var s' := s1.(mem := CopyBytes(s1.mem, kva, Phys(s1.mem, p, uva), n));
      HarmlessRead(s, s', p, uva, n, kva) && !Mapped(s'.mem, p, uva) && s'.mem == CopyBytes(s.mem, kva, uva % 4096, n)
  {
    hide Inv, CopyBytes, Lookup, SameEntries, KeepsAccounts, KernelByte, SamePerms, Quiet;
    ZeroFrame(s.mem, p, uva);
    SamePermsBuffer(s, s1, kva, 0, n);
    var m' := CopyBytes(s1.mem, kva, uva % 4096, n);
    CopyKeepsRest(s1.mem, kva, uva % 4096, n);
    KernelWriteQuiet(s1, m', p, uva, n, kva);
    SameEntriesLookup(s1.mem, m', p, uva);
    QuietPerms(s, s1, s1.(mem := m'), p, uva, n, kva);
  }

  lemma QuietPerms(s: Machine, s1: Machine, s2: Machine, p: int, uva: u32, n: int, kva: int)
    requires s1.mem == s.mem && SamePerms(s, s1) && Quiet(s1, s2, p, uva, n, kva)
    ensures Quiet(s, s2, p, uva, n, kva)
  {
    hide Lookup, Phys, StaticByte;
  }

  lemma HarmlessReadTrans(s: Machine, s1: Machine, s2: Machine, p: int, uva: int, kva: int, n: int, len: int)
    requires Pid(p) && 0 <= uva && 0 <= n <= len
    requires HarmlessRead(s, s1, p, uva, n, kva) && HarmlessRead(s1, s2, p, uva + n, len - n, kva + n)
    ensures HarmlessRead(s, s2, p, uva, len, kva)
  {
    hide Inv, Ledger, Quiet;
    QuietTrans(s, s1, s2, p, uva, n, kva, uva + n, len - n, kva + n, uva, len, kva);
  }

  lemma ReadReady(s: Machine, s1: Machine, p: int, uva: int, kva: int, n: int, len: int)
    requires Pid(p) && 0 <= n <= len && KernelBuffer(s, kva, len) && HarmlessRead(s, s1, p, uva, n, kva)
    ensures Inv(s1) && PmmOk(s1.pool.pmm) && KernelBuffer(s1, kva + n, len - n)
  {
    InvPmm(s1);
    hide Inv, PmmOk, KernelByte, KeepsLookups, KeepsBytes, MapsOnly;
    SamePermsBuffer(s, s1, kva, n, len);
  }

  lemma {:induction false} ReadUserHarmless(s: Machine, p: int, uva: int, kva: int, len: int)
    requires Inv(s) && UserPid(p) && UserRange(uva, len) && KernelBuffer(s, kva, len) && PmmOk(s.pool.pmm)
    ensures HarmlessRead(s, ReadUser(s, p, uva, kva, len), p, uva, len, kva)
    decreases len
  {
    hide Inv, PmmOk, ReadChunk, HarmlessRead, PageNeeds, CopyBytes, FreePages, OnePage, KernelByte;
    if len == 0 {
      ReadNothingHarmless(s, p, uva, kva);
    } else {
      var n := ChunkSize(uva, len);
      ReadChunkHarmless(s, p, uva, kva, n);
      var s1 := ReadChunk(s, p, uva, kva, n);
      ReadReady(s, s1, p, uva, kva, n, len);
      ReadUserHarmless(s1, p, uva + n, kva + n, len - n);
      HarmlessReadTrans(s, s1, ReadUser(s1, p, uva + n, kva + n, len - n), p, uva, kva, n, len);
    }
  }

  lemma ReadNothingHarmless(s: Machine, p: int, uva: int, kva: int)
    requires Inv(s) && Pid(p)
    ensures HarmlessRead(s, s, p, uva, 0, kva)
  {
    hide Inv, Ledger, Lookup, Phys, KernelByte;
  }

  lemma {:induction false} ReadUserFails(s: Machine, p: int, uva: int, kva: int, len: int) returns (w: u32)
    requires Inv(s) && UserPid(p) && UserRange(uva, len) && KernelBuffer(s, kva, len) && PmmOk(s.pool.pmm)
    requires Needs(s.mem, p, uva, len) > |FreePages(s.pool.pmm)|
    ensures uva <= w < uva + len && !Mapped(ReadUser(s, p, uva, kva, len).mem, p, w)
    decreases len
  {
    hide Inv, PmmOk, ReadChunk, PageNeeds, CopyBytes, FreePages, Needs, Mapped, HarmlessRead, OnePage, KernelByte;
    NoNeeds(s.mem, p, uva);
    var n := ChunkSize(uva, len);
    var s1 := ReadChunk(s, p, uva, kva, n);
    ReadChunkHarmless(s, p, uva, kva, n);
    ReadReady(s, s1, p, uva, kva, n, len);
    var s' := ReadUser(s1, p, uva + n, kva + n, len - n);
    if PageNeeds(s.mem, p, uva) > |FreePages(s.pool.pmm)| {
      ReadUserHarmless(s1, p, uva + n, kva + n, len - n);
      StaysUnmappedRead(s1, s', p, uva, kva, n, len);
      w := uva;
    } else {
      NeedsStep(s.mem, s1.mem, p, uva, n, len);
      w := ReadUserFails(s1, p, uva + n, kva + n, len - n);
    }
  }

  lemma StaysUnmappedRead(s1: Machine, s': Machine, p: int, uva: u32, kva: int, n: int, len: int)
    requires UserPid(p) && UserRange(uva, len) && 0 < len && n == ChunkSize(uva, len) && !Mapped(s1.mem, p, uva)
    requires if n < len then HarmlessRead(s1, s', p, uva + n, len - n, kva + n) else s' == s1
    ensures !Mapped(s'.mem, p, uva)
  {
    hide Inv, KeepsAccounts, KeepsLookups, KeepsBytes, KeepsKernelBut, Lookup;
    if n < len {
      NextBoundary(uva, n);
    }
  }

  /* ----- the flags of what was allocated on demand ----- */

  lemma {:induction false} WriteTranslations(s: Machine, p: int, uva: int, len: int, src: Source, w: u32)
    requires Inv(s) && UserPid(p) && UserRange(uva, len) && SourceInRange(src, len) && PmmOk(s.pool.pmm) && UserVa(w)
    ensures var m' := WriteUser(s, p, uva, len, src).mem;
      && (Mapped(s.mem, p, w) ==> Mmu(m', p, w) == Mmu(s.mem, p, w))
      && (!Mapped(s.mem, p, w) && Mapped(m', p, w) ==> Mmu(m', p, w) == Hit(Phys(m', p, w), true, true, false))
  {
    hide Inv, PmmOk, WriteUser, KeepsAccounts, Scarce, KeepsLookups, KeepsBytes, MapsOnly, NewFlags;
    hide KeepsKernelBut, Mmu, Mapped;
    WriteUserHarmless(s, p, uva, len, src);
    NewTranslation(s, WriteUser(s, p, uva, len, src), p, w);
  }

  lemma {:induction false} ReadTranslations(s: Machine, p: int, uva: int, kva: int, len: int, w: u32)
    requires Inv(s) && UserPid(p) && UserRange(uva, len) && KernelBuffer(s, kva, len) && PmmOk(s.pool.pmm) && UserVa(w)
    ensures var m' := ReadUser(s, p, uva, kva, len).mem;
      && (Mapped(s.mem, p, w) ==> Mmu(m', p, w) == Mmu(s.mem, p, w))
      && (!Mapped(s.mem, p, w) && Mapped(m', p, w) ==> Mmu(m', p, w) == Hit(Phys(m', p, w), true, true, false))
  {
    hide Inv, PmmOk, ReadUser, KeepsAccounts, KeepsLookups, KeepsBytes, MapsOnly, NewFlags, KeepsKernelBut, Mmu, Mapped;
    hide KernelByte;
    ReadUserHarmless(s, p, uva, kva, len);
    NewTranslation(s, ReadUser(s, p, uva, kva, len), p, w);
  }

  // Copies that have their pages: every address of the range that was missing is there, read-write.
  lemma {:induction false} MissingMapped(s: Machine, p: int, uva: int, kva: int, len: int, src: Source, w: u32)
    requires Inv(s) && UserPid(p) && UserRange(uva, len) && SourceInRange(src, len) && SourceSafe(s, src, len)
    requires KernelBuffer(s, kva, len) && Needs(s.mem, p, uva, len) <= |FreePages(s.pool.pmm)| && PmmOk(s.pool.pmm)
    requires uva <= w < uva + len && !Mapped(s.mem, p, w)
    ensures var m' := WriteUser(s, p, uva, len, src).mem; Mmu(m', p, w) == Hit(Phys(m', p, w), true, true, false)
    ensures var m' := ReadUser(s, p, uva, kva, len).mem; Mmu(m', p, w) == Hit(Phys(m', p, w), true, true, false)
  {
    hide Inv, PmmOk, WriteUser, ReadUser, Needs, FreePages, Took, Opened, Confined, Quiet, Mmu, Mapped;
    hide SourceSafe, UserByte, KernelByte, Phys;
    WriteUserCorrect(s, p, uva, len, src);
    ReadUserCorrect(s, p, uva, kva, len);
    WriteTranslations(s, p, uva, len, src, w);
    ReadTranslations(s, p, uva, kva, len, w);
  }

  /* ----- exactly when a copy delivers ----- */

  lemma {:induction false} WriteDeliversIff(s: Machine, p: int, uva: int, len: int, src: Source)
    requires Inv(s) && UserPid(p) && UserRange(uva, len) && SourceInRange(src, len) && SourceSafe(s, src, len)
    requires PmmOk(s.pool.pmm)
    ensures Holds(WriteUser(s, p, uva, len, src).mem, p, uva, len, s.mem, src) <==>
      Needs(s.mem, p, uva, len) <= |FreePages(s.pool.pmm)|
  {
    hide Inv, PmmOk, WriteUser, Needs, FreePages, Mapped, SourceSafe, Took, Confined, Opened, SrcByte, UserByte;
    if Needs(s.mem, p, uva, len) <= |FreePages(s.pool.pmm)| {
      WriteUserCorrect(s, p, uva, len, src);
    } else {
      var w := WriteUserFails(s, p, uva, len, src);
    }
  }

  // pt_copyout reports the full length in every case; the bytes are there if and only if the allocator has
  // a page for each page and each table that the range misses.
  lemma CopyoutDeliversIff(s: Machine, kva: u32, p: int, uva: u32, len: u32)
    requires Inv(s) && UserPid(p) && UserRange(uva, len) && KernelBuffer(s, kva, len) && kva + len <= VM_USERHI
    requires PmmOk(s.pool.pmm)
    ensures PtCopyout(s, kva, p, uva, len).1 == len
    ensures Holds(PtCopyout(s, kva, p, uva, len).0.mem, p, uva, len, s.mem, Kernel(kva)) <==>
      Needs(s.mem, p, uva, len) <= |FreePages(s.pool.pmm)|
  {
    hide Inv, PmmOk, WriteUser, Needs, FreePages, Holds, KernelByte;
    WriteDeliversIff(s, p, uva, len, Kernel(kva));
  }

  lemma MemsetDeliversIff(s: Machine, p: int, va: u32, c: int, len: u32)
    requires Inv(s) && UserPid(p) && UserRange(va, len) && PmmOk(s.pool.pmm)
    ensures PtMemset(s, p, va, c, len).1 == len
    ensures Holds(PtMemset(s, p, va, c, len).0.mem, p, va, len, s.mem, Constant(c % 0x100)) <==>
      Needs(s.mem, p, va, len) <= |FreePages(s.pool.pmm)|
  {
    hide Inv, PmmOk, WriteUser, Needs, FreePages, Holds;
    WriteDeliversIff(s, p, va, len, Constant(c % 0x100));
  }

  lemma CopyinDeliversIff(s: Machine, p: int, uva: u32, kva: u32, len: u32)
    requires Inv(s) && UserPid(p) && UserRange(uva, len) && KernelBuffer(s, kva, len) && kva + len <= VM_USERHI
    requires PmmOk(s.pool.pmm)
    ensures PtCopyin(s, p, uva, kva, len).1 == len
    ensures Delivered(PtCopyin(s, p, uva, kva, len).0.mem, p, uva, len, kva) <==>
      Needs(s.mem, p, uva, len) <= |FreePages(s.pool.pmm)|
  {
    hide Inv, PmmOk, ReadUser, Needs, FreePages, Mapped, KernelByte, Took, Quiet, UserByte;
    if Needs(s.mem, p, uva, len) <= |FreePages(s.pool.pmm)| {
      ReadUserCorrect(s, p, uva, kva, len);
    } else {
      var w := ReadUserFails(s, p, uva, kva, len);
    }
  }

  // The failing input: a range within one unmapped page and no page to be had. Physical page 0 is
  // overwritten (or read from), and the full length is reported.
  lemma LostCopies(s: Machine, p: int, uva: u32, n: u32, kva: u32, c: int)
    requires Inv(s) && UserPid(p) && UserRange(uva, n) && 0 < n <= 4096 - uva % 4096 && PmmOk(s.pool.pmm)
    requires KernelBuffer(s, kva, n) && kva + n <= VM_USERHI && PageNeeds(s.mem, p, uva) > |FreePages(s.pool.pmm)|
    ensures var (s', r) := PtCopyout(s, kva, p, uva, n); s'.mem == CopyBytes(s.mem, uva % 4096, kva, n) && r == n
    ensures var (s', r) := PtCopyin(s, p, uva, kva, n); s'.mem == CopyBytes(s.mem, kva, uva % 4096, n) && r == n
    ensures var (s', r) := PtMemset(s, p, uva, c, n); s'.mem == FillBytes(s.mem, uva % 4096, c % 0x100, n) && r == n
  {
    hide Inv, PmmOk, WriteChunk, ReadChunk, Harmless, HarmlessRead, PageNeeds, FreePages, CopyBytes;
    hide FillBytes, KernelByte, Mapped;
    WriteChunkHarmless(s, p, uva, n, Kernel(kva));
    WriteChunkHarmless(s, p, uva, n, Constant(c % 0x100));
    ReadChunkHarmless(s, p, uva, kva, n);
    OneWrite(s, p, uva, n, Kernel(kva));
    OneWrite(s, p, uva, n, Constant(c % 0x100));
    OneRead(s, p, uva, kva, n);
  }

  lemma {:induction false} OneWrite(s: Machine, p: int, uva: u32, n: int, src: Source)
    requires Pid(p) && PmmOk(s.pool.pmm) && 0 < n <= 4096 - uva % 4096 && SourceInRange(src, n)
    ensures WriteUser(s, p, uva, n, src) == WriteChunk(s, p, uva, n, src)
  {
    hide PmmOk, WriteChunk;
  }

  lemma {:induction false} OneRead(s: Machine, p: int, uva: u32, kva: int, n: int)
    requires Pid(p) && PmmOk(s.pool.pmm) && 0 < n <= 4096 - uva % 4096 && 0 <= kva
    requires kva + n <= MEM_SIZE
    ensures ReadUser(s, p, uva, kva, n) == ReadChunk(s, p, uva, kva, n)
  {
    hide PmmOk, ReadChunk;
  }
}
