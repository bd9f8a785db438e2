// kern/vmm/MPTComm, MPTKern and MPTNew: the operations that allocate, map, unmap and free, as functions
// of the whole machine state, and the invariant of the page structures that they keep.
module PageMaps {
  import opened Words
  import opened PageAllocator
  import opened Containers
  import opened PageTables

  datatype Machine = Machine(pool: Pool, mem: Mem)

  /* ----- operations ----- */

  function AllocPtbl(s: Machine, p: int, va: u32): (Machine, int)
    requires Pid(p) && UserPage(s.pool.pmm.cursor)
  {
    var (pool, f) := Alloc(s.pool, p);
    if f == 0 then (s.(pool := pool), 0) else (Machine(pool, InstallTable(s.mem, p, PdeIdx(va), f)), f)
  }

  function FreePtbl(s: Machine, p: int, va: u32): Machine
    requires Pid(p)
  {
    var page := Pde(s.mem, p, PdeIdx(va)) / 4096;
    Machine(Release(s.pool, p, page), SetPde(s.mem, p, PdeIdx(va), 0))
  }

  function SetPteByVa(m: Mem, p: int, va: u32, e: u32): Mem
    requires Pid(p)
  { SetPte(m, p, PdeIdx(va), PteIdx(va), e) }

  // Returns the directory entry, or MAGIC_NUMBER when no table could be allocated.
  function MapPage(s: Machine, p: int, va: u32, page: u32, perm: int): (Machine, u32)
    requires Pid(p) && UserPage(s.pool.pmm.cursor) && 0 <= perm < 4096
  {
    var (s1, t) := if Present(Pde(s.mem, p, PdeIdx(va))) then (s, 1) else AllocPtbl(s, p, va);
    if t == 0 then (s1, MAGIC_NUMBER)
    else
      var m := SetPteByVa(s1.mem, p, va, Entry(page, perm));
      (s1.(mem := m), Pde(m, p, PdeIdx(va)))
  }

  function UnmapPage(s: Machine, p: int, va: u32): (Machine, u32)
    requires Pid(p)
  {
    var e := Lookup(s.mem, p, va);
    if !Present(Pde(s.mem, p, PdeIdx(va))) || !Present(e) then (s, 0)
    else (s.(mem := SetPteByVa(s.mem, p, va, 0)), e)
  }

  // Failure of map_page is recognised by its result alone.
  function AllocPage(s: Machine, p: int, va: u32, perm: int): (Machine, u32)
    requires Pid(p) && PmmOk(s.pool.pmm) && 0 <= perm < 4096
  {
    var (pool, page) := Alloc(s.pool, p);
    if page == 0 then (s.(pool := pool), MAGIC_NUMBER)
    else
      var (s2, entry) := MapPage(s.(pool := pool), p, va, page, perm);
      if entry == MAGIC_NUMBER then (s2.(pool := Release(s2.pool, p, page)), entry) else (s2, entry)
  }

  function AllocMemQuota(s: Machine, id: int, quota: u32): (Machine, int)
    requires Id(id)
  {
    var (cs, child) := Split(s.pool.cs, id, quota);
    (s.(pool := s.pool.(cs := cs)), child)
  }

  /* ----- the invariant ----- */

  // Every live frame is allocated, to the process whose table or mapping names it.
  ghost predicate Backed(s: Machine) {
    forall x :: Live(s.mem, x) ==> Allocated(s.pool.pmm, FrameOf(s.mem, x)) && s.pool.owner[FrameOf(s.mem, x)] == x.p
  }

  ghost predicate Inv(s: Machine) {
    PmmOk(s.pool.pmm) && TablesOk(s.mem) && Backed(s)
  }

  // What allocating a page does to the invariant: the new page is in no table and no mapping.
  lemma AllocInv(s: Machine, p: int)
    requires Inv(s) && Pid(p)
    ensures var (pool, f) := Alloc(s.pool, p);
      && Inv(s.(pool := pool))
      && (f == 0 ==> pool == s.pool.(pmm := s.pool.pmm.(cursor := 0x4_0000)))
      && (f != 0 ==> UserPage(f) && Free(s.pool.pmm, f) && Unused(s.mem, f))
      && (f != 0 ==>
           pool.pmm.at == s.pool.pmm.at[f := PageInfo(s.pool.pmm.at[f].perm, 1)] && pool.owner == s.pool.owner[f := p])
      && (f != 0 ==> pool.cs == Charge(s.pool.cs, p, 1))
  {
    hide TablesOk, Charge;
    PallocFirstFit(s.pool.pmm);
    hide Palloc, PmmOk;
  }

  // Giving back a page that no live slot names.
  lemma ReleaseInv(s: Machine, p: int, f: int)
    requires Inv(s) && Pid(p) && Page(f) && Unused(s.mem, f)
    ensures Inv(s.(pool := Release(s.pool, p, f)))
  {
    hide TablesOk, Charge;
  }

  function SlotOf(p: int, va: u32): Slot { Leaf(p, PdeIdx(va), PteIdx(va)) }
  function TableOf(p: int, va: u32): Slot { Table(p, PdeIdx(va)) }

  lemma UserSlots(p: int, va: u32)
    requires UserPid(p) && UserVa(va)
    ensures UserSlot(SlotOf(p, va)) && UserSlot(TableOf(p, va)) && UserPde(PdeIdx(va)) && Idx(PteIdx(va))
  {
    AddressParts(va);
  }

  lemma EntryParts(page: int, perm: int)
    requires Page(page) && 0 <= perm < 4096
    ensures Entry(page, perm) / 4096 == page && Entry(page, perm) % 4096 == perm
    ensures Present(Entry(page, perm)) <==> perm % 2 == 1
  {
    PageSplit(page, perm);
    assert Entry(page, perm) == 2 * (2048 * page) + perm;
  }

  // alloc_ptbl: fails leaving only the cursor moved, or installs an empty table.
  lemma AllocPtblInv(s: Machine, p: int, va: u32)
    requires Inv(s) && UserPid(p) && UserVa(va)
    ensures var (s', f) := AllocPtbl(s, p, va);
      && Inv(s') && (s'.pool, f) == Alloc(s.pool, p)
      && (f == 0 ==> s'.mem == s.mem)
      && (f != 0 ==> UserPage(f) && Live(s'.mem, TableOf(p, va)))
      && (f != 0 ==> forall x :: UserSlot(x) ==> EntryOf(s'.mem, x) == NewTableEntry(s.mem, p, PdeIdx(va), f, x))
  {
    hide TablesOk, InstallTable, Alloc;
    UserSlots(p, va);
    AllocInv(s, p);
    var (pool, f) := Alloc(s.pool, p);
    if f != 0 {
      InstallTableView(s.mem, p, PdeIdx(va), f);
      EntryParts(f, 7);
      hide EntryOf;
    }
  }

  // free_ptbl: drops the table and its mappings and frees the table's page, which belongs to p.
  lemma FreePtblInv(s: Machine, p: int, va: u32)
    requires Inv(s) && UserPid(p) && UserVa(va)
    ensures var s' := FreePtbl(s, p, va); var page := Pde(s.mem, p, PdeIdx(va)) / 4096;
      && Inv(s')
      && (Allocated(s.pool.pmm, page) ==> s.pool.owner[page] == p)
      && (Live(s.mem, TableOf(p, va)) <==> Allocated(s.pool.pmm, page))
      && forall x :: UserSlot(x) ==>
        EntryOf(s'.mem, x) == if (x.p, x.d) == (p, PdeIdx(va)) then 0 else EntryOf(s.mem, x)
  {
    UserSlots(p, va);
    var d := PdeIdx(va);
    var page := Pde(s.mem, p, d) / 4096;
    TablePage(s, p, d);
    FreePtblUnused(s, p, d);
    hide TablesOk, SetPde, PmmOk, Pde, Pte;
    ReleaseInv(s.(mem := SetPde(s.mem, p, d, 0)), p, page);
    RemovePdeView(s.mem, p, d);
  }

  // The page behind a directory slot: p's own when there is a table, page 0 otherwise.
  lemma TablePage(s: Machine, p: int, d: int)
    requires Inv(s) && UserPid(p) && UserPde(d)
    ensures var page := Pde(s.mem, p, d) / 4096;
      && (Allocated(s.pool.pmm, page) ==> s.pool.owner[page] == p)
      && (Live(s.mem, Table(p, d)) <==> Allocated(s.pool.pmm, page))
  {
    hide Pde, Pte, KernelHalf, Separated;
    assert Pde(s.mem, p, d) == 0 || Live(s.mem, Table(p, d)) by {
      assert Pde(s.mem, p, d) == 0 || Pde(s.mem, p, d) % 4096 == 7;
    }
    if Live(s.mem, Table(p, d)) {
      assert FrameOf(s.mem, Table(p, d)) == Pde(s.mem, p, d) / 4096;
    }
  }

  lemma FreePtblUnused(s: Machine, p: int, d: int)
    requires Inv(s) && UserPid(p) && UserPde(d)
    ensures var m := SetPde(s.mem, p, d, 0); Inv(s.(mem := m)) && Unused(m, Pde(s.mem, p, d) / 4096)
  {
    var m := SetPde(s.mem, p, d, 0);
    RemovePdeView(s.mem, p, d);
    hide SetPde, PmmOk, Pde, Pte, KernelHalf, UserDirs, Separated, TablesOk;
    forall x | Live(m, x)
      ensures FrameOf(m, x) != Pde(s.mem, p, d) / 4096
    {
      FreedFrame(s, p, d, x);
    }
  }

  // No slot outside directory slot (p, d) names the frame of its table.
  lemma FreedFrame(s: Machine, p: int, d: int, x: Slot)
    requires Inv(s) && UserPid(p) && UserPde(d) && Live(s.mem, x) && (x.p, x.d) != (p, d)
    ensures FrameOf(s.mem, x) != Pde(s.mem, p, d) / 4096
  {
    hide Pde, Pte, KernelHalf, PmmOk;
    if Live(s.mem, Table(p, d)) {
      assert x != Table(p, d);
      assert FrameOf(s.mem, x) == FrameOf(s.mem, Table(p, d)) ==> x == Table(p, d);
    } else {
      assert Pde(s.mem, p, d) == 0 && UserPage(FrameOf(s.mem, x));
    }
  }

  // One mapping of p replaced by e: absent, or naming a page that p holds and nothing else names.
  lemma PteUpdateInv(s: Machine, p: int, va: u32, e: u32)
    requires Inv(s) && UserPid(p) && UserVa(va) && Live(s.mem, TableOf(p, va))
    requires Present(e) ==>
      && UserPage(e / 4096) && Unused(s.mem, e / 4096) && Allocated(s.pool.pmm, e / 4096)
      && s.pool.owner[e / 4096] == p
    ensures Inv(s.(mem := SetPteByVa(s.mem, p, va, e)))
    ensures forall x :: UserSlot(x) ==>
      EntryOf(SetPteByVa(s.mem, p, va, e), x) == if x == SlotOf(p, va) then e else EntryOf(s.mem, x)
  {
    UserSlots(p, va);
    var m := SetPteByVa(s.mem, p, va, e);
    SetPteView(s.mem, p, PdeIdx(va), PteIdx(va), e);
    StaticInv(s.mem, m);
    hide SetPte, EntryOf, UserSlot, PdeIdx, PteIdx;
    assert forall x :: UserSlot(x) ==> OnlySlot(s.mem, m, SlotOf(p, va), e, x);
    SlotUpdate(s.mem, m, SlotOf(p, va));
    hide TablesOk, PmmOk;
  }

  /* ----- map_page, unmap_page, alloc_page on user addresses ----- */

  // Mapping slot of (p, va) becomes e, its table is there afterwards, and no other entry moves.
  predicate OneMapping(m: Mem, m': Mem, p: int, va: u32, e: u32, x: Slot)
    requires UserSlot(x)
  {
    if x == SlotOf(p, va) then EntryOf(m', x) == e
    else if x == TableOf(p, va) then Live(m', x) && (Live(m, x) ==> EntryOf(m', x) == EntryOf(m, x))
    else EntryOf(m', x) == EntryOf(m, x)
  }

  ghost predicate Maps(m: Mem, m': Mem, p: int, va: u32, e: u32) {
    forall x :: UserSlot(x) ==> OneMapping(m, m', p, va, e, x)
  }

  // Only the scan cursor differs.
  predicate OnlyCursor(a: Pool, b: Pool) {
    b == a.(pmm := a.pmm.(cursor := b.pmm.cursor))
  }

  lemma SetPteMaps(s: Machine, p: int, va: u32, e: u32)
    requires Inv(s) && UserPid(p) && UserVa(va) && Live(s.mem, TableOf(p, va))
    ensures Maps(s.mem, SetPteByVa(s.mem, p, va, e), p, va, e)
    ensures Pde(SetPteByVa(s.mem, p, va, e), p, PdeIdx(va)) == Pde(s.mem, p, PdeIdx(va))
    ensures Pde(s.mem, p, PdeIdx(va)) % 4096 == 7
  {
    UserSlots(p, va);
    SetPteView(s.mem, p, PdeIdx(va), PteIdx(va), e);
    assert Pde(s.mem, p, PdeIdx(va)) == 0 || Pde(s.mem, p, PdeIdx(va)) % 4096 == 7;
    hide SetPte, Pde, Pte, TablesOk, PdeIdx, PteIdx, PmmOk;
    var m := SetPteByVa(s.mem, p, va, e);
    forall x | UserSlot(x)
      ensures OneMapping(s.mem, m, p, va, e, x)
    {
      assert OnlySlot(s.mem, m, SlotOf(p, va), e, x);
    }
  }

  lemma NewTableMaps(m: Mem, m1: Mem, m': Mem, p: int, va: u32, f: int, e: u32)
    requires UserPid(p) && UserVa(va) && !Present(Pde(m, p, PdeIdx(va))) && UserPage(f)
    requires forall x :: UserSlot(x) ==> EntryOf(m1, x) == NewTableEntry(m, p, PdeIdx(va), f, x)
    requires Maps(m1, m', p, va, e)
    ensures Maps(m, m', p, va, e)
  {
  }

  // map_page is a point update of the entries when it succeeds, and changes nothing when it fails.
  lemma MapPageView(s: Machine, p: int, va: u32, page: int, perm: int)
    requires Inv(s) && UserPid(p) && UserVa(va) && Page(page) && 0 <= perm < 4096
    ensures var (s', r) := MapPage(s, p, va, page, perm);
      && (r == MAGIC_NUMBER <==> !Live(s.mem, TableOf(p, va)) && Alloc(s.pool, p).1 == 0)
      && (r == MAGIC_NUMBER ==> s'.mem == s.mem && OnlyCursor(s.pool, s'.pool))
      && (r != MAGIC_NUMBER ==> Maps(s.mem, s'.mem, p, va, Entry(page, perm)) && r % 4096 == 7)
      && (r != MAGIC_NUMBER ==> r == Pde(s'.mem, p, PdeIdx(va)))
      && s'.pool == (if Live(s.mem, TableOf(p, va)) then s.pool else Alloc(s.pool, p).0)
  {
    UserSlots(p, va);
    var e := Entry(page, perm);
    if Present(Pde(s.mem, p, PdeIdx(va))) {
      hide SetPteByVa, Alloc, Entry, Maps, Inv, PmmOk;
      SetPteMaps(s, p, va, e);
    } else {
      AllocPtblInv(s, p, va);
      AllocInv(s, p);
      var (s1, f) := AllocPtbl(s, p, va);
      hide SetPteByVa, Alloc, Entry, Maps, Inv, PmmOk, AllocPtbl, NewTableEntry;
      if f != 0 {
        SetPteMaps(s1, p, va, e);
        NewTableMaps(s.mem, s1.mem, SetPteByVa(s1.mem, p, va, e), p, va, f, e);
      }
    }
  }

  // Page is held by p and named by no table and no mapping of anyone.
  ghost predicate HeldSpare(s: Machine, p: int, page: int) {
    UserPage(page) && Allocated(s.pool.pmm, page) && s.pool.owner[page] == p && Unused(s.mem, page)
  }

  lemma MapPageInv(s: Machine, p: int, va: u32, page: int, perm: int)
    requires Inv(s) && UserPid(p) && UserVa(va) && 0 <= perm < 4096 && HeldSpare(s, p, page)
    ensures var (s', r) := MapPage(s, p, va, page, perm);
      Inv(s') && (r == MAGIC_NUMBER ==> HeldSpare(s', p, page))
  {
    MapPageView(s, p, va, page, perm);
    UserSlots(p, va);
    EntryParts(page, perm);
    var e := Entry(page, perm);
    if Present(Pde(s.mem, p, PdeIdx(va))) {
      hide Entry, Maps, Inv, Alloc;
      PteUpdateInv(s, p, va, e);
    } else {
      AllocPtblInv(s, p, va);
      AllocInv(s, p);
      var (s1, f) := AllocPtbl(s, p, va);
      if f != 0 {
        EntryParts(f, 7);
        SpareKept(s, s1, p, va, f, page);
        hide Entry, Maps, Inv, Alloc, AllocPtbl, HeldSpare;
        PteUpdateInv(s1, p, va, e) by { assert HeldSpare(s1, p, page); }
      }
    }
  }

  lemma SpareKept(s: Machine, s1: Machine, p: int, va: u32, f: int, page: int)
    requires Inv(s) && HeldSpare(s, p, page) && Page(f) && f != page && UserPid(p) && UserVa(va)
    requires s1.pool.pmm.at == s.pool.pmm.at[f := PageInfo(s.pool.pmm.at[f].perm, 1)]
    requires s1.pool.owner == s.pool.owner[f := p]
    requires forall x :: UserSlot(x) ==> EntryOf(s1.mem, x) == NewTableEntry(s.mem, p, PdeIdx(va), f, x)
    ensures HeldSpare(s1, p, page)
  {
    EntryParts(f, 7);
    hide EntryOf, Inv, PdeIdx, Entry;
  }

  // Charging a page and giving it back leaves table and containers as they were.
  lemma ChargeUndone(s: Pool, p: int)
    requires Id(p) && PmmOk(s.pmm)
    ensures var (s1, f) := Alloc(s, p);
      f != 0 ==> (IsInt(s.cs[p].usage) ==> Release(s1, p, f).cs == s.cs)
                 && Release(s1, p, f).pmm == s1.pmm.(at := Release(s1, p, f).pmm.at)
                 && (forall i :: Page(i) ==>
                      Release(s1, p, f).pmm.at[i] == if i == f then PageInfo(s.pmm.at[f].perm, 0) else s.pmm.at[i])
  {
    PallocFirstFit(s.pmm);
    hide Palloc, PmmOk;
  }

  // The state in which alloc_page calls map_page.
  lemma AllocForMap(s: Machine, p: int)
    requires Inv(s) && UserPid(p)
    ensures var (pool, f) := Alloc(s.pool, p); var s1 := s.(pool := pool);
      Inv(s1) && (f != 0 ==> HeldSpare(s1, p, f) && Free(s.pool.pmm, f))
  {
    AllocInv(s, p);
    hide TablesOk, PmmOk, Alloc, Live;
  }

  // alloc_page keeps the invariant, and its result is unambiguous: 1048577, MagicNumber, exactly
  // when the page or the table it needs cannot be allocated.
  lemma AllocPageInv(s: Machine, p: int, va: u32, perm: int)
    requires Inv(s) && UserPid(p) && UserVa(va) && 0 <= perm < 4096
    ensures var (s', r) := AllocPage(s, p, va, perm); var (pool, f) := Alloc(s.pool, p);
      && Inv(s')
      && (r == 1048577 <==> f == 0 || (!Live(s.mem, TableOf(p, va)) && Alloc(pool, p).1 == 0))
  {
    var (pool, f) := Alloc(s.pool, p);
    var s1 := s.(pool := pool);
    AllocForMap(s, p);
    hide Inv, HeldSpare, Alloc, MapPage;
    if f != 0 {
      MapPageView(s1, p, va, f, perm);
      MapPageInv(s1, p, va, f, perm);
      var (s2, r) := MapPage(s1, p, va, f, perm);
      hide Maps;
      if r == MAGIC_NUMBER {
        ReleaseSpare(s2, p, f);
      }
    }
  }

  lemma ReleaseSpare(s: Machine, p: int, f: int)
    requires Inv(s) && HeldSpare(s, p, f) && UserPid(p)
    ensures Inv(s.(pool := Release(s.pool, p, f)))
  {
    hide Inv, Release;
    ReleaseInv(s, p, f);
  }

  // A failed alloc_page leaves the allocation table, all containers (whose fields are 32-bit integers in
  // the source) and all memory exactly as before; the scan for pages is back at the start of the range.
  lemma AllocPageFails(s: Machine, p: int, va: u32, perm: int)
    requires Inv(s) && UserPid(p) && UserVa(va) && 0 <= perm < 4096
    requires AllocPage(s, p, va, perm).1 == MAGIC_NUMBER
    ensures var s' := AllocPage(s, p, va, perm).0;
      && s'.mem == s.mem && s'.pool.pmm == s.pool.pmm.(cursor := 0x4_0000)
      && (IsInt(s.pool.cs[p].usage) ==> s'.pool.cs == s.pool.cs)
  {
    var (pool, f) := Alloc(s.pool, p);
    var s1 := s.(pool := pool);
    AllocForMap(s, p);
    AllocInv(s, p);
    if f != 0 {
      MapPageView(s1, p, va, f, perm);
      AllocInv(s1, p);
      ChargeUndone(s.pool, p);
      var (s2, r) := MapPage(s1, p, va, f, perm);
      hide Inv, HeldSpare, Alloc, MapPage, Maps, Charge;
      assert OnlyCursor(pool, s2.pool);
      RestoredTable(s.pool, pool, s2.pool, p, f);
    }
  }

  lemma RestoredTable(s: Pool, s1: Pool, s2: Pool, p: int, f: int)
    requires Id(p) && Page(f) && Free(s.pmm, f) && OnlyCursor(s1, s2) && Allocated(s1.pmm, f)
    requires s1.pmm.nps == s.pmm.nps
    requires forall i :: Page(i) ==>
      Release(s1, p, f).pmm.at[i] == if i == f then PageInfo(s.pmm.at[f].perm, 0) else s.pmm.at[i]
    ensures Release(s2, p, f).cs == Release(s1, p, f).cs && Release(s2, p, f).pmm == s.pmm.(cursor := s2.pmm.cursor)
  {
  }

  // A successful alloc_page maps a formerly free page and touches no other entry of anyone.
  lemma AllocPageMaps(s: Machine, p: int, va: u32, perm: int)
    requires Inv(s) && UserPid(p) && UserVa(va) && 0 <= perm < 4096
    requires AllocPage(s, p, va, perm).1 != MAGIC_NUMBER
    ensures var (s', r) := AllocPage(s, p, va, perm); var (pool, f) := Alloc(s.pool, p);
      && f != 0 && UserPage(f) && Free(s.pool.pmm, f) && Maps(s.mem, s'.mem, p, va, Entry(f, perm))
      && r == Pde(s'.mem, p, PdeIdx(va)) && r % 4096 == 7
      && s'.pool == if Live(s.mem, TableOf(p, va)) then pool else Alloc(pool, p).0
  {
    var (pool, f) := Alloc(s.pool, p);
    AllocForMap(s, p);
    AllocInv(s, p);
    MapPageView(s.(pool := pool), p, va, f, perm);
    hide Inv, HeldSpare, Alloc, MapPage, Maps;
  }

  // unmap_page returns the old entry (0 if there was none) and removes exactly that mapping.
  lemma UnmapPageInv(s: Machine, p: int, va: u32)
    requires Inv(s) && UserPid(p) && UserVa(va)
    ensures var (s', r) := UnmapPage(s, p, va);
      && Inv(s') && s'.pool == s.pool && r == Lookup(s.mem, p, va)
      && (r == 0 ==> s' == s)
      && (r != 0 ==> Maps(s.mem, s'.mem, p, va, 0))
  {
    UserSlots(p, va);
    if Present(Pde(s.mem, p, PdeIdx(va))) {
      hide Pde, PdeIdx, PteIdx, SetPteByVa, Inv, Maps;
      PteUpdateInv(s, p, va, 0);
      SetPteMaps(s, p, va, 0);
    }
  }

  /* ----- the two-level structure refines a flat map ----- */

  function UserKeys(): set<(int, int)> {
    set p, v | 1 <= p < 64 && 0x4_0000 <= v < 0xF_0000 :: (p, v)
  }

  function At(m: Mem, k: (int, int)): u32
    requires k in UserKeys()
  { Lookup(m, k.0, k.1 * 4096) }

  // (process, virtual page) -> entry, for the mappings that are present.
  ghost function Flat(m: Mem): map<(int, int), u32> {
    map k | k in UserKeys() && At(m, k) != 0 :: At(m, k)
  }

  function Key(p: int, va: u32): (int, int) { (p, va / 4096) }

  lemma FlatLookup(m: Mem, p: int, va: u32)
    requires UserPid(p) && UserVa(va)
    ensures Lookup(m, p, va) == if Key(p, va) in Flat(m) then Flat(m)[Key(p, va)] else 0
  {
    SamePage(va, va / 4096 * 4096);
    assert Key(p, va) in UserKeys() && At(m, Key(p, va)) == Lookup(m, p, va);
  }

  // A change of one mapping, seen through get_ptbl_entry_by_va.
  lemma MapsLookup(m: Mem, m': Mem, p: int, va: u32, e: u32, q: int, vb: u32)
    requires UserPid(p) && UserVa(va) && UserPid(q) && UserVa(vb) && Maps(m, m', p, va, e)
    ensures Lookup(m', q, vb) == if Key(q, vb) == Key(p, va) then if Present(e) then e else 0 else Lookup(m, q, vb)
  {
    UserSlots(p, va);
    UserSlots(q, vb);
    SamePage(va, vb);
    assert OneMapping(m, m', p, va, e, SlotOf(q, vb));
    hide Pde, Pte, PdeIdx, PteIdx, Maps;
  }

  function Updated(f: map<(int, int), u32>, k: (int, int), e: u32): map<(int, int), u32> {
    if Present(e) then f[k := e] else f - {k}
  }

  lemma MapsFlat(m: Mem, m': Mem, p: int, va: u32, e: u32)
    requires UserPid(p) && UserVa(va) && Maps(m, m', p, va, e)
    ensures Flat(m') == Updated(Flat(m), Key(p, va), e)
  {
    forall k | k in UserKeys()
      ensures At(m', k) == if k == Key(p, va) then if Present(e) then e else 0 else At(m, k)
    {
      MapsLookup(m, m', p, va, e, k.0, k.1 * 4096);
    }
    assert Key(p, va) in UserKeys() && (Present(e) ==> e != 0);
    hide Lookup, Maps, At, Key, UserKeys, Present;
    FlatUpdate(m, m', Key(p, va), e);
  }

  lemma FlatUpdate(m: Mem, m': Mem, key: (int, int), e: u32)
    requires key in UserKeys() && (Present(e) ==> e != 0)
    requires forall k :: k in UserKeys() ==> At(m', k) == if k == key then if Present(e) then e else 0 else At(m, k)
    ensures Flat(m') == Updated(Flat(m), key, e)
  {
    hide At, UserKeys, Present;
    assert forall k :: k in Flat(m') <==> k in Updated(Flat(m), key, e);
  }

  // map_page: a point update, or no change at all.
  lemma MapPageRefines(s: Machine, p: int, va: u32, page: int, perm: int)
    requires Inv(s) && UserPid(p) && UserVa(va) && Page(page) && 0 <= perm < 4096
    ensures var (s', r) := MapPage(s, p, va, page, perm);
      Flat(s'.mem) == if r == MAGIC_NUMBER then Flat(s.mem) else Updated(Flat(s.mem), Key(p, va), Entry(page, perm))
  {
    MapPageView(s, p, va, page, perm);
    hide MapPage, Inv, Maps;
    var (s', r) := MapPage(s, p, va, page, perm);
    if r != MAGIC_NUMBER {
      MapsFlat(s.mem, s'.mem, p, va, Entry(page, perm));
    }
  }

  // unmap_page: a point removal that returns what was there.
  lemma UnmapPageRefines(s: Machine, p: int, va: u32)
    requires Inv(s) && UserPid(p) && UserVa(va)
    ensures var (s', r) := UnmapPage(s, p, va);
      && Flat(s'.mem) == Flat(s.mem) - {Key(p, va)}
      && r == if Key(p, va) in Flat(s.mem) then Flat(s.mem)[Key(p, va)] else 0
  {
    UnmapPageInv(s, p, va);
    FlatLookup(s.mem, p, va);
    hide UnmapPage, Inv, Maps, Lookup;
    var (s', r) := UnmapPage(s, p, va);
    if r != 0 {
      MapsFlat(s.mem, s'.mem, p, va, 0);
    } else {
      assert Flat(s.mem) - {Key(p, va)} == Flat(s.mem);
    }
  }

  // The mappings of p that go through directory slot d.
  ghost function Behind(p: int, d: int): set<(int, int)> {
    set k | k in UserKeys() && k.0 == p && k.1 / 1024 == d
  }

  lemma DropRegion(m: Mem, m': Mem, p: int, d: int)
    requires UserPid(p) && UserPde(d)
    requires forall x :: UserSlot(x) && x.Leaf? ==> EntryOf(m', x) == if (x.p, x.d) == (p, d) then 0 else EntryOf(m, x)
    ensures Flat(m') == Flat(m) - Behind(p, d)
  {
    forall k | k in UserKeys()
      ensures At(m', k) == if k in Behind(p, d) then 0 else At(m, k)
    {
      var va: u32 := k.1 * 4096;
      UserSlots(k.0, va);
      assert PdeIdx(va) == k.1 / 1024;
      var x := SlotOf(k.0, va);
      assert EntryOf(m', x) == if (x.p, x.d) == (p, d) then 0 else EntryOf(m, x);
      hide Pde, Pte, PdeIdx, PteIdx;
    }
    hide Lookup, At;
    assert forall k :: k in Flat(m') <==> k in Flat(m) - Behind(p, d);
  }

  // alloc_ptbl exposes no stale mapping: with no table before, the map is unchanged; a table that was
  // already there is replaced by an empty one.
  lemma AllocPtblRefines(s: Machine, p: int, va: u32)
    requires Inv(s) && UserPid(p) && UserVa(va)
    ensures var (s', f) := AllocPtbl(s, p, va);
      && (f == 0 ==> Flat(s'.mem) == Flat(s.mem))
      && (f != 0 ==> Flat(s'.mem) == Flat(s.mem) - Behind(p, PdeIdx(va)))
      && (!Live(s.mem, TableOf(p, va)) ==> Flat(s'.mem) == Flat(s.mem))
  {
    UserSlots(p, va);
    AllocPtblInv(s, p, va);
    hide Inv, AllocPtbl;
    var (s', f) := AllocPtbl(s, p, va);
    if f != 0 {
      DropRegion(s.mem, s'.mem, p, PdeIdx(va));
      if !Live(s.mem, TableOf(p, va)) {
        NothingBehind(s.mem, p, PdeIdx(va));
      }
    }
  }

  lemma NothingBehind(m: Mem, p: int, d: int)
    requires UserPid(p) && UserPde(d) && !Live(m, Table(p, d))
    ensures Flat(m) - Behind(p, d) == Flat(m)
  {
    forall k | k in Behind(p, d)
      ensures At(m, k) == 0
    {
      var va: u32 := k.1 * 4096;
      UserSlots(k.0, va);
      assert PdeIdx(va) == k.1 / 1024;
    }
  }

  lemma FreePtblRefines(s: Machine, p: int, va: u32)
    requires Inv(s) && UserPid(p) && UserVa(va)
    ensures Flat(FreePtbl(s, p, va).mem) == Flat(s.mem) - Behind(p, PdeIdx(va))
  {
    UserSlots(p, va);
    FreePtblInv(s, p, va);
    hide Inv, FreePtbl;
    DropRegion(s.mem, FreePtbl(s, p, va).mem, p, PdeIdx(va));
  }

  /* ----- which bytes alloc_page can change: page tables, and pages that were free ----- */

  predicate Untouchable(s: Machine, a: int)
    requires 0 <= a < MEM_SIZE
  { !StaticByte(a) && !Free(s.pool.pmm, a / 4096) }

  ghost predicate OutsideTables(s: Machine, a: int) {
    && 0 <= a < MEM_SIZE && Untouchable(s, a)
    && forall p, d :: Live(s.mem, Table(p, d)) ==> FrameOf(s.mem, Table(p, d)) != a / 4096
  }

  lemma MapPageBytes(s: Machine, p: int, va: u32, page: int, perm: int, a: int)
    requires Inv(s) && UserPid(p) && UserVa(va) && Page(page) && 0 <= perm < 4096 && OutsideTables(s, a)
    ensures MapPage(s, p, va, page, perm).0.mem[a] == s.mem[a]
  {
    UserSlots(p, va);
    var d, t := PdeIdx(va), PteIdx(va);
    if Present(Pde(s.mem, p, d)) {
      hide SetPte, Inv;
      SetPteBytes(s.mem, p, d, t, Entry(page, perm), a);
    } else {
      AllocInv(s, p);
      AllocPtblInv(s, p, va);
      var (s1, f) := AllocPtbl(s, p, va);
      if f != 0 {
        EntryParts(f, 7);
        InstallBytes(s.mem, p, d, f, a);
        assert EntryOf(s1.mem, Table(p, d)) == NewTableEntry(s.mem, p, d, f, Table(p, d));
        hide Inv, SetPte, InstallTable, Alloc, Entry;
        SetPteBytes(s1.mem, p, d, t, Entry(page, perm), a);
      }
    }
  }

  lemma AllocPageBytes(s: Machine, p: int, va: u32, perm: int, a: int)
    requires Inv(s) && UserPid(p) && UserVa(va) && 0 <= perm < 4096 && OutsideTables(s, a)
    ensures AllocPage(s, p, va, perm).0.mem[a] == s.mem[a]
  {
    AllocForMap(s, p);
    AllocInv(s, p);
    var (pool, f) := Alloc(s.pool, p);
    if f != 0 {
      assert OutsideTables(s.(pool := pool), a);
      hide Inv, Alloc, MapPage, HeldSpare, OutsideTables;
      MapPageBytes(s.(pool := pool), p, va, f, perm, a);
    }
  }

  lemma UnmapPageBytes(s: Machine, p: int, va: u32, a: int)
    requires Inv(s) && UserPid(p) && UserVa(va) && OutsideTables(s, a)
    ensures UnmapPage(s, p, va).0.mem[a] == s.mem[a]
  {
    UserSlots(p, va);
    hide SetPte, Inv, Pde, Untouchable;
    if Present(Pde(s.mem, p, PdeIdx(va))) {
      assert Live(s.mem, Table(p, PdeIdx(va)));
      SetPteBytes(s.mem, p, PdeIdx(va), PteIdx(va), 0, a);
    }
  }

  lemma AllocPtblBytes(s: Machine, p: int, va: u32, a: int)
    requires Inv(s) && UserPid(p) && UserVa(va) && OutsideTables(s, a)
    ensures AllocPtbl(s, p, va).0.mem[a] == s.mem[a]
  {
    UserSlots(p, va);
    AllocInv(s, p);
    hide Inv, InstallTable, Alloc;
    var f := Alloc(s.pool, p).1;
    if f != 0 {
      InstallBytes(s.mem, p, PdeIdx(va), f, a);
    }
  }

  lemma FreePtblBytes(s: Machine, p: int, va: u32, a: int)
    requires Inv(s) && UserPid(p) && UserVa(va) && OutsideTables(s, a)
    ensures FreePtbl(s, p, va).mem[a] == s.mem[a]
  {
    UserSlots(p, va);
    hide Inv, SetPde, Release;
    SetPdeBytes(s.mem, p, PdeIdx(va), 0, a);
  }
}
