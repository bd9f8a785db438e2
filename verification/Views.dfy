// What one process sees of the machine, its translations and the bytes behind them, and that no page-table
// operation of another process changes it.
module Views {
  import opened Words
  import opened PageAllocator
  import opened Containers
  import opened PageTables
  import opened PageMaps
  import opened UserCopy

  // Process q sees the same translations and the same bytes.
  ghost predicate SameView(m: Mem, m': Mem, q: int)
    requires Pid(q)
  {
    forall vb: u32 :: UserVa(vb) ==>
      Lookup(m', q, vb) == Lookup(m, q, vb) && (Mapped(m, q, vb) ==> UserByte(m', q, vb) == UserByte(m, q, vb))
  }

  lemma SameViewRefl(m: Mem, q: int)
    requires UserPid(q)
    ensures SameView(m, m, q)
  {
  }

  lemma SameViewTrans(m: Mem, m1: Mem, m2: Mem, q: int)
    requires UserPid(q) && SameView(m, m1, q) && SameView(m1, m2, q)
    ensures SameView(m, m2, q)
  {
  }

  lemma ConfinedView(s: Machine, s': Machine, p: int, lo: int, hi: int, q: int)
    requires Confined(s, s', p, lo, hi) && UserPid(q) && q != p
    ensures SameView(s.mem, s'.mem, q)
  {
    hide Lookup, Phys, KernelByte;
  }

  lemma QuietView(s: Machine, s': Machine, p: int, uva: int, n: int, kva: int, q: int)
    requires Quiet(s, s', p, uva, n, kva) && UserPid(q) && q != p
    ensures SameView(s.mem, s'.mem, q)
  {
    hide Lookup, Phys, KernelByte;
    assert forall vb: u32 :: UserVa(vb) && Mapped(s.mem, q, vb) ==> UserByte(s'.mem, q, vb) == UserByte(s.mem, q, vb);
  }

  // When the entries of q are kept and only bytes of tables and free pages change, q sees nothing.
  lemma EntriesView(s: Machine, m': Mem, q: int)
    requires Inv(s) && UserPid(q)
    requires forall x :: UserSlot(x) && x.p == q && x.Leaf? ==> EntryOf(m', x) == EntryOf(s.mem, x)
    requires forall a :: OutsideTables(s, a) ==> m'[a] == s.mem[a]
    ensures SameView(s.mem, m', q)
  {
    hide Inv, OutsideTables, PdeIdx, PteIdx, Pde, Pte;
    forall vb: u32 | UserVa(vb)
      ensures Lookup(m', q, vb) == Lookup(s.mem, q, vb)
      ensures Mapped(s.mem, q, vb) ==> UserByte(m', q, vb) == UserByte(s.mem, q, vb)
    {
      UserSlots(q, vb);
      assert EntryOf(m', SlotOf(q, vb)) == EntryOf(s.mem, SlotOf(q, vb));
      if Mapped(s.mem, q, vb) {
        MappedFrame(s, q, vb);
      }
    }
  }

  lemma MapNewView(s: Machine, p: int, va: u32, perm: int, q: int)
    requires Inv(s) && UserPid(p) && UserVa(va) && 0 <= perm < 4096 && UserPid(q) && q != p && PmmOk(s.pool.pmm)
    ensures SameView(s.mem, AllocPage(s, p, va, perm).0.mem, q)
  {
    var (s', r) := AllocPage(s, p, va, perm);
    if r == MAGIC_NUMBER {
      AllocPageFails(s, p, va, perm);
      hide AllocPage, Inv, Lookup, Phys;
    } else {
      AllocPageMaps(s, p, va, perm);
      forall x | UserSlot(x) && x.p == q && x.Leaf?
        ensures EntryOf(s'.mem, x) == EntryOf(s.mem, x)
      {
        assert OneMapping(s.mem, s'.mem, p, va, Entry(Alloc(s.pool, p).1, perm), x);
      }
      hide AllocPage, Inv, EntryOf, Maps, Alloc;
      forall a | OutsideTables(s, a)
        ensures s'.mem[a] == s.mem[a]
      {
        AllocPageBytes(s, p, va, perm, a);
      }
      EntriesView(s, s'.mem, q);
    }
  }

  lemma UnmapView(s: Machine, p: int, va: u32, q: int)
    requires Inv(s) && UserPid(p) && UserVa(va) && UserPid(q) && q != p
    ensures SameView(s.mem, UnmapPage(s, p, va).0.mem, q)
  {
    var s' := UnmapPage(s, p, va).0;
    UnmapPageInv(s, p, va);
    forall x | UserSlot(x) && x.p == q && x.Leaf?
      ensures EntryOf(s'.mem, x) == EntryOf(s.mem, x)
    {
      assert s' == s || OneMapping(s.mem, s'.mem, p, va, 0, x);
    }
    hide UnmapPage, Inv, EntryOf, Maps;
    forall a | OutsideTables(s, a)
      ensures s'.mem[a] == s.mem[a]
    {
      UnmapPageBytes(s, p, va, a);
    }
    EntriesView(s, s'.mem, q);
  }

  lemma AddTableView(s: Machine, p: int, va: u32, q: int)
    requires Inv(s) && UserPid(p) && UserVa(va) && UserPid(q) && q != p && PmmOk(s.pool.pmm)
    ensures SameView(s.mem, AllocPtbl(s, p, va).0.mem, q)
  {
    var s' := AllocPtbl(s, p, va).0;
    AllocPtblInv(s, p, va);
    hide AllocPtbl, Inv, EntryOf, PmmOk, Live;
    forall x | UserSlot(x) && x.p == q && x.Leaf?
      ensures EntryOf(s'.mem, x) == EntryOf(s.mem, x)
    {
    }
    hide NewTableEntry;
    forall a | OutsideTables(s, a)
      ensures s'.mem[a] == s.mem[a]
    {
      AllocPtblBytes(s, p, va, a);
    }
    EntriesView(s, s'.mem, q);
  }

  lemma DropTableView(s: Machine, p: int, va: u32, q: int)
    requires Inv(s) && UserPid(p) && UserVa(va) && UserPid(q) && q != p
    ensures SameView(s.mem, FreePtbl(s, p, va).mem, q)
  {
    var s' := FreePtbl(s, p, va);
    FreePtblInv(s, p, va);
    hide FreePtbl, Inv, EntryOf, Live, Pde;
    forall a | OutsideTables(s, a)
      ensures s'.mem[a] == s.mem[a]
    {
      FreePtblBytes(s, p, va, a);
    }
    EntriesView(s, s'.mem, q);
  }

  /* ----- what the hardware finds after alloc_page ----- */

  // The page is there, at a frame that was free, with the flags asked for.
  lemma AllocPageHits(s: Machine, p: int, va: u32, perm: int, vb: u32) returns (f: int)
    requires Inv(s) && UserPid(p) && UserVa(va) && 0 <= perm < 4096 && perm % 2 == 1 && vb / 4096 == va / 4096
    requires AllocPage(s, p, va, perm).1 != MAGIC_NUMBER
    ensures UserPage(f) && Free(s.pool.pmm, f)
    ensures Mmu(AllocPage(s, p, va, perm).0.mem, p, vb)
         == Hit(4096 * f + vb % 4096, perm / 2 % 2 == 1, perm / 4 % 2 == 1, perm / 256 % 2 == 1)
  {
    hide Inv, AllocPage, Alloc, Lookup, Entry, Mmu, UserDirs, KernelHalf, Maps;
    DirectoriesOk(s);
    AllocPageInv(s, p, va, perm);
    var s' := AllocPage(s, p, va, perm).0;
    DirectoriesOk(s');
    f := NewEntry(s, p, va, perm, vb);
    EntryTranslates(s'.mem, p, vb, f, perm);
  }

  lemma NewEntry(s: Machine, p: int, va: u32, perm: int, vb: u32) returns (f: int)
    requires Inv(s) && UserPid(p) && UserVa(va) && 0 <= perm < 4096 && perm % 2 == 1 && vb / 4096 == va / 4096
    requires AllocPage(s, p, va, perm).1 != MAGIC_NUMBER
    ensures UserPage(f) && Free(s.pool.pmm, f) && UserVa(vb)
    ensures Lookup(AllocPage(s, p, va, perm).0.mem, p, vb) == Entry(f, perm)
  {
    AllocPageMaps(s, p, va, perm);
    AllocNewPage(s, p, va, perm);
    f := Alloc(s.pool, p).1;
    SamePage(va, vb);
    hide Inv, AllocPage, Alloc, Lookup, Entry, Maps;
  }

  lemma EntryTranslates(m: Mem, p: int, vb: u32, f: int, perm: int)
    requires UserDirs(m) && UserPid(p) && UserVa(vb) && UserPage(f) && 0 <= perm < 4096 && perm % 2 == 1
    requires Lookup(m, p, vb) == Entry(f, perm)
    ensures Mmu(m, p, vb) == Hit(4096 * f + vb % 4096, perm / 2 % 2 == 1, perm / 4 % 2 == 1, perm / 256 % 2 == 1)
  {
    hide Lookup, Entry, Mmu;
    EntryParts(f, perm);
    FlagBits(Entry(f, perm), f, perm);
    UserTranslation(m, p, vb);
  }

  lemma DirectoriesOk(s: Machine)
    requires Inv(s)
    ensures KernelHalf(s.mem) && UserDirs(s.mem) && PmmOk(s.pool.pmm)
  {
  }

  // Every other page of every process translates as before, and holds what it held.
  lemma AllocPageElsewhere(s: Machine, p: int, va: u32, perm: int, q: int, vb: u32)
    requires Inv(s) && UserPid(p) && UserVa(va) && 0 <= perm < 4096 && perm % 2 == 1
    requires AllocPage(s, p, va, perm).1 != MAGIC_NUMBER
    requires Pid(q) && !(q == p && vb / 4096 == va / 4096)
    ensures var m' := AllocPage(s, p, va, perm).0.mem;
      && Mmu(m', q, vb) == Mmu(s.mem, q, vb)
      && (UserPid(q) && UserVa(vb) && Mapped(s.mem, q, vb) ==> UserByte(m', q, vb) == UserByte(s.mem, q, vb))
  {
    var s' := AllocPage(s, p, va, perm).0;
    AllocPageInv(s, p, va, perm);
    DirectoriesOk(s);
    DirectoriesOk(s');
    hide Inv, AllocPage, Alloc, Lookup, Entry, Mmu, UserDirs, KernelHalf, UserByte;
    if q == 0 || !UserVa(vb) {
      KernelIdentity(s.mem, q, vb);
      KernelIdentity(s'.mem, q, vb);
    } else {
      AllocNewPage(s, p, va, perm);
      UserTranslation(s.mem, q, vb);
      UserTranslation(s'.mem, q, vb);
      if Mapped(s.mem, q, vb) {
        AllocKeepsBytes(s, p, va, perm, q, vb);
      }
    }
  }
}
