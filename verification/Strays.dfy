// Addresses outside the user range: alloc_page, elf_load and the copies do not keep away from them. What the
// kernel loses there, and exactly when it loses nothing.
module Strays {
  import opened Words
  import opened PageAllocator
  import opened Containers
  import opened PageTables
  import opened PageMaps
  import opened Budget
  import opened UserCopy
  import opened CopyFailure
  import opened Loader

  /* ----- alloc_page ----- */

  // What every process reads for an address of the static identity tables.
  lemma KernelEntry(m: Mem, p: int, va: u32)
    requires KernelHalf(m) && Pid(p) && !UserVa(va)
    ensures Pde(m, p, PdeIdx(va)) == LAYOUT.idp + 4096 * PdeIdx(va) + 7 && Present(Pde(m, p, PdeIdx(va)))
    ensures Lookup(m, p, va) == IdEntry(PdeIdx(va), PteIdx(va)) && Phys(m, p, va) == va
  {
    var d, t := PdeIdx(va), PteIdx(va);
    AddressParts(va);
    assert Pde(m, p, d) == LAYOUT.idp + 4096 * d + 7 && IdPte(m, d, t) == IdEntry(d, t);
    IdTable(d, t);
    BitsOf(d, t);
    BitsOfPde(Pde(m, p, d));
    hide Word, PdeIdx, PteIdx, IdEntry;
  }

  // The shared identity tables lead va to frame f.
  ghost predicate Stray(m: Mem, va: u32, f: int, perm: int)
    requires 0 <= perm < 4096
  {
    && !UserVa(va) && UserPage(f)
    && (forall q :: Pid(q) ==> Pde(m, q, PdeIdx(va)) == LAYOUT.idp + 4096 * PdeIdx(va) + 7)
    && Idx(PdeIdx(va)) && Idx(PteIdx(va)) && IdPte(m, PdeIdx(va), PteIdx(va)) == Entry(f, perm)
  }

  lemma StrayBreaks(m: Mem, va: u32, f: int, perm: int)
    requires 0 <= perm < 4096 && Stray(m, va, f, perm)
    ensures !KernelHalf(m)
  {
    var d, t := PdeIdx(va), PteIdx(va);
    AddressParts(va);
    EntryParts(f, perm);
    BitsOf(d, t);
    PageSplit(1024 * d + t, 0);
    hide PdeIdx, PteIdx, Entry, IdEntry, Word;
    assert IdPte(m, d, t) != IdEntry(d, t);
  }

  lemma StrayEntry(m: Mem, p: int, d: int, t: int, e: u32)
    requires KernelHalf(m) && Pid(p) && Idx(d) && Idx(t) && !UserPde(d)
    ensures IdPte(SetPte(m, p, d, t, e), d, t) == e
    ensures forall q :: Pid(q) ==> Pde(SetPte(m, p, d, t, e), q, d) == LAYOUT.idp + 4096 * d + 7
  {
    assert Pde(m, p, d) == LAYOUT.idp + 4096 * d + 7;
    IdTable(d, t);
    BitsOfPde(Pde(m, p, d));
    PutWordEffect(m, IdAddr(d, t), e);
    hide PutWord, Word;
    forall q | Pid(q)
      ensures Pde(SetPte(m, p, d, t, e), q, d) == LAYOUT.idp + 4096 * d + 7
    {
      assert Pde(m, q, d) == LAYOUT.idp + 4096 * d + 7;
    }
  }

  // With a free page, alloc_page for a kernel address writes it into the tables that all processes share.
  lemma StrayAlloc(s: Machine, p: int, va: u32, perm: int) returns (f: int)
    requires Inv(s) && UserPid(p) && !UserVa(va) && 0 <= perm < 4096 && PmmOk(s.pool.pmm) && FreePages(s.pool.pmm) != {}
    ensures Stray(AllocPage(s, p, va, perm).0.mem, va, f, perm)
    ensures AllocPage(s, p, va, perm).1 != MAGIC_NUMBER
  {
    OneTake(s.pool, p);
    AllocInv(s, p);
    AddressParts(va);
    KernelEntry(s.mem, p, va);
    f := Alloc(s.pool, p).1;
    StrayEntry(s.mem, p, PdeIdx(va), PteIdx(va), Entry(f, perm));
    EntryParts(f, perm);
    PageSplit(LAYOUT.idp / 4096 + PdeIdx(va), 7);
    hide Inv, PmmOk, Alloc, SetPte, Pde, IdPte, Entry, PdeIdx, PteIdx, FreePages, Lookup, Phys;
  }

  // alloc_page keeps the page structures if and only if it is asked for a user address, or has no page to give.
  lemma AllocPageInvIff(s: Machine, p: int, va: u32, perm: int)
    requires Inv(s) && UserPid(p) && 0 <= perm < 4096 && PmmOk(s.pool.pmm)
    ensures Inv(AllocPage(s, p, va, perm).0) <==> UserVa(va) || FreePages(s.pool.pmm) == {}
  {
    hide PmmOk, FreePages, AllocPage, Stray, KernelHalf, Backed;
    if UserVa(va) {
      AllocPageInv(s, p, va, perm);
    } else if FreePages(s.pool.pmm) == {} {
      NothingToGive(s, p, va, perm);
    } else {
      var f := StrayAlloc(s, p, va, perm);
      StrayBreaks(AllocPage(s, p, va, perm).0.mem, va, f, perm);
    }
  }

  lemma NothingToGive(s: Machine, p: int, va: u32, perm: int)
    requires Inv(s) && UserPid(p) && 0 <= perm < 4096 && PmmOk(s.pool.pmm) && FreePages(s.pool.pmm) == {}
    ensures Inv(AllocPage(s, p, va, perm).0)
  {
    OneTake(s.pool, p);
    AllocInv(s, p);
    hide Inv, PmmOk, Alloc, FreePages;
  }

  // Every process had the address at itself, and none has it afterwards.
  lemma EveryoneLoses(s: Machine, p: int, va: u32, perm: int, q: int)
    requires Inv(s) && UserPid(p) && Pid(q) && !UserVa(va) && 0 <= perm < 4096 && PmmOk(s.pool.pmm)
    requires FreePages(s.pool.pmm) != {}
    ensures Mmu(s.mem, q, va) == Hit(va, true, false, true)
    ensures Mmu(AllocPage(s, p, va, perm).0.mem, q, va) != Mmu(s.mem, q, va)
  {
    hide PmmOk, FreePages, AllocPage, Stray, Mmu, UserDirs, Separated, InUserFrames, Backed;
    KernelIdentity(s.mem, q, va);
    var f := StrayAlloc(s, p, va, perm);
    StrayTranslation(AllocPage(s, p, va, perm).0.mem, q, va, f, perm);
  }

  lemma StrayTranslation(m: Mem, q: int, va: u32, f: int, perm: int)
    requires 0 <= perm < 4096 && Stray(m, va, f, perm) && Pid(q)
    ensures Mmu(m, q, va) != Hit(va, true, false, true)
  {
    var d, t := PdeIdx(va), PteIdx(va);
    AddressParts(va);
    IdTable(d, t);
    BitsOfPde(Pde(m, q, d));
    EntryParts(f, perm);
    StrayFrame(f, va);
    hide PdeIdx, PteIdx, Entry, Word;
  }

  lemma StrayFrame(f: int, va: u32)
    requires UserPage(f) && !UserVa(va)
    ensures f * 4096 + va % 4096 != va
  {
  }

  /* ----- the page loop of elf_load ----- */

  // A write through the stray entry goes to its frame and leaves the entry.
  lemma {:induction false} StrayWrite(s: Machine, p: int, va: u32, n: int, src: Source, f: int, perm: int)
    requires Pid(p) && PmmOk(s.pool.pmm) && va % 4096 == 0 && 0 <= n <= 4096 && SourceInRange(src, n)
    requires 0 <= perm < 4096 && perm % 2 == 1 && Stray(s.mem, va, f, perm)
    ensures Stray(WriteUser(s, p, va, n, src).mem, va, f, perm)
  {
    hide PmmOk, PutChunk, Entry, Stray, Phys, Lookup;
    if n > 0 {
      StrayPhys(s.mem, p, va, f, perm);
      OneWrite(s, p, va, n, src);
      PutEffect(s.mem, 4096 * f, src, n);
      StrayKept(s.mem, PutChunk(s.mem, 4096 * f, src, n), va, f, perm);
    }
  }

  lemma StrayPhys(m: Mem, p: int, va: u32, f: int, perm: int)
    requires Pid(p) && va % 4096 == 0 && 0 <= perm < 4096 && perm % 2 == 1 && Stray(m, va, f, perm)
    ensures Present(Lookup(m, p, va)) && Phys(m, p, va) == 4096 * f
  {
    var d, t := PdeIdx(va), PteIdx(va);
    IdTable(d, t);
    BitsOfPde(Pde(m, p, d));
    EntryParts(f, perm);
    hide PdeIdx, PteIdx, Entry, Word;
  }

  lemma StrayKept(m: Mem, m': Mem, va: u32, f: int, perm: int)
    requires 0 <= perm < 4096 && Stray(m, va, f, perm)
    requires forall a :: 0 <= a < MEM_SIZE && a / 4096 != f ==> m'[a] == m[a]
    ensures Stray(m', va, f, perm)
  {
    hide Word, Entry, PdeIdx, PteIdx;
    forall a | StaticByte(a)
      ensures m'[a] == m[a]
    {
      assert a / 4096 != f;
    }
    StaticKept(m, m');
    var d, t := PdeIdx(va), PteIdx(va);
    assert IdPte(m', d, t) == IdPte(m, d, t);
    forall q | Pid(q)
      ensures Pde(m', q, d) == LAYOUT.idp + 4096 * d + 7
    {
      assert Pde(m', q, d) == Pde(m, q, d);
    }
  }

  // One page of an image at a kernel address, while there is a free page: the invariant is lost, whatever the
  // file holds.
  lemma StrayPage(s: Machine, p: int, fa: u32, va: u32, zva: u32, filesz: u32, perm: int)
    requires Inv(s) && UserPid(p) && !UserVa(va) && va % 4096 == 0 && fa + 4096 <= MEM_SIZE && PmmOk(s.pool.pmm)
    requires 0 <= perm < 4096 && perm % 2 == 1 && FreePages(s.pool.pmm) != {}
    ensures !Inv(LoadPage(s, p, fa, va, zva, filesz, perm))
  {
    hide PmmOk, FreePages, AllocPage, Stray, KernelHalf, Backed, FillPage;
    var s1 := AllocPage(s, p, va, perm).0;
    AllocPageCursor(s, p, va, perm);
    var f := StrayAlloc(s, p, va, perm);
    StrayFill(s1, p, fa, va, zva, filesz, f, perm);
    StrayBreaks(LoadPage(s, p, fa, va, zva, filesz, perm).mem, va, f, perm);
  }

  lemma {:induction false} StrayFill(s: Machine, p: int, fa: u32, va: u32, zva: u32, filesz: u32, f: int, perm: int)
    requires Pid(p) && PmmOk(s.pool.pmm) && va % 4096 == 0 && fa + 4096 <= MEM_SIZE
    requires 0 <= perm < 4096 && perm % 2 == 1 && Stray(s.mem, va, f, perm)
    ensures Stray(FillPage(s, p, fa, va, zva, filesz).mem, va, f, perm)
  {
    hide PmmOk, WriteUser, Stray, RoundDown, Accepted;
    if va < RoundDown(zva) {
      StrayWrite(s, p, va, 4096, Kernel(fa), f, perm);
    } else {
      Leftover(va, zva);
      StrayWrite(s, p, va, 4096, Constant(0), f, perm);
      if va < zva && filesz != 0 {
        StrayWrite(PtMemset(s, p, va, 0, 4096).0, p, va, zva - va, Kernel(fa), f, perm);
      }
    }
  }

  /* ----- copies ----- */

  lemma HighTouch(s: Machine, p: int, uva: u32)
    requires Inv(s) && UserPid(p) && VM_USERHI <= uva && PmmOk(s.pool.pmm)
    ensures Touch(s, p, uva) == s && Phys(s.mem, p, uva) == uva
  {
    hide PmmOk, UserDirs, Separated, InUserFrames, Backed, AllocPage;
    KernelEntry(s.mem, p, uva);
    BitsOf(PdeIdx(uva), PteIdx(uva));
    hide Lookup, Phys, Pde, IdEntry;
  }

  // The top of the address space is memory of the kernel's own.
  lemma HighBuffer(s: Machine, a: int, n: int)
    requires PmmOk(s.pool.pmm) && VM_USERHI <= a && 0 <= n && a + n <= MEM_SIZE
    ensures KernelBuffer(s, a, n)
  {
    forall i | a <= i < a + n
      ensures KernelByte(s, i)
    {
      assert !UserPage(i / 4096);
    }
  }

  lemma PutAt(m: Mem, pa: int, src: Source, n: int, a: int)
    requires 0 <= n && 0 <= pa && pa + n <= MEM_SIZE && SourceInRange(src, n) && 0 <= a < MEM_SIZE
    ensures PutChunk(m, pa, src, n)[a] == if pa <= a < pa + n then SrcByte(m, src, a - pa) else m[a]
  {
    hide PutChunk, SrcByte;
    PutEffect(m, pa, src, n);
  }

  lemma PutTwice(m: Mem, pa: int, src: Source, n: int, len: int)
    requires 0 <= n <= len && VM_USERHI <= pa && pa + len <= MEM_SIZE && SourceInRange(src, len)
    requires src.Kernel? ==> src.kva + len <= VM_USERHI
    ensures PutChunk(PutChunk(m, pa, src, n), pa + n, Advance(src, n), len - n) == PutChunk(m, pa, src, len)
  {
    hide PutChunk;
    var m1 := PutChunk(m, pa, src, n);
    var m2, m3 := PutChunk(m1, pa + n, Advance(src, n), len - n), PutChunk(m, pa, src, len);
    forall a | 0 <= a < MEM_SIZE
      ensures m2[a] == m3[a]
    {
      PutAt(m, pa, src, n, a);
      PutAt(m1, pa + n, Advance(src, n), len - n, a);
      PutAt(m, pa, src, len, a);
      if src.Kernel? && pa + n <= a < pa + len {
        PutAt(m, pa, src, n, src.kva + (a - pa));
      }
    }
  }

  // A range at the top of the address space is written where it is, page by page, up to the very end.
  lemma {:induction false} WriteHigh(s: Machine, p: int, uva: u32, len: int, src: Source)
    requires Inv(s) && UserPid(p) && VM_USERHI <= uva && 0 <= len && uva + len <= MEM_SIZE && PmmOk(s.pool.pmm)
    requires SourceInRange(src, len) && (src.Kernel? ==> src.kva + len <= VM_USERHI)
    ensures WriteUser(s, p, uva, len, src) == s.(mem := PutChunk(s.mem, uva, src, len))
    decreases len
  {
    hide Inv, PmmOk, Touch, PutChunk, Phys, KernelByte;
    if len == 0 {
      PutNothing(s.mem, uva, src);
    } else {
      var n := ChunkSize(uva, len);
      HighTouch(s, p, uva);
      HighBuffer(s, uva, n);
      PutEffect(s.mem, uva, src, n);
      var s1 := s.(mem := PutChunk(s.mem, uva, src, n));
      KernelWrite(s, s1.mem, uva, n);
      assert WriteChunk(s, p, uva, n, src) == s1;
      if n < len {
        WriteHigh(s1, p, uva + n, len - n, Advance(src, n));
        PutTwice(s.mem, uva, src, n, len);
      } else {
        NothingMore(s1, p, NextVa(uva, n), Advance(src, n));
      }
    }
  }

  lemma PutNothing(m: Mem, pa: int, src: Source)
    requires 0 <= pa <= MEM_SIZE && SourceInRange(src, 0)
    ensures PutChunk(m, pa, src, 0) == m
  {
  }

  lemma {:induction false} NothingMore(s: Machine, p: int, uva: u32, src: Source)
    requires Pid(p) && PmmOk(s.pool.pmm) && SourceInRange(src, 0)
    ensures WriteUser(s, p, uva, 0, src) == s
  {
    hide PmmOk;
  }

  // A range that ends with the address space passes the check of pt_copyout, whose sum wraps to 0, and
  // pt_memset checks nothing: both overwrite the kernel's memory there and report success.
  lemma HighCopies(s: Machine, kva: u32, p: int, uva: u32, len: u32, c: int)
    requires Inv(s) && UserPid(p) && PmmOk(s.pool.pmm) && VM_USERHI <= uva && uva + len <= MEM_SIZE
    requires kva + len <= VM_USERHI
    ensures uva + len == MEM_SIZE ==>
      PtCopyout(s, kva, p, uva, len) == (s.(mem := CopyBytes(s.mem, uva, kva, len)), len)
    ensures PtMemset(s, p, uva, c, len) == (s.(mem := FillBytes(s.mem, uva, c % 0x100, len)), len)
  {
    hide Inv, PmmOk, WriteUser, CopyBytes, FillBytes;
    WriteHigh(s, p, uva, len, Kernel(kva));
    WriteHigh(s, p, uva, len, Constant(c % 0x100));
    if uva + len == MEM_SIZE {
      Unwrapped(uva + len);
      Unwrapped(kva + len);
    }
  }
}
