// What on-demand allocation needs: exactly one page for each page that is not mapped, and one for each
// directory slot without a table. Counted before the operation, under the page-structure invariant alone.
module Budget {
  import opened Words
  import opened PageAllocator
  import opened Containers
  import opened PageTables
  import opened PageMaps
  import opened Quota

  /* ----- what an operation took from the allocator ----- */

  // n pages were taken, and where accounts were kept for p they are kept, charged with exactly n.
  ghost predicate Took(a: Pool, b: Pool, p: int, n: int)
    requires Id(p)
  {
    && |FreePages(b.pmm)| == |FreePages(a.pmm)| - n
    && (Ledger(a) && (n > 0 ==> a.cs[p].used == 1) ==>
         Ledger(b) && b.cs == a.cs[p := a.cs[p].(usage := a.cs[p].usage + n)])
  }

  lemma TookTrans(a: Pool, b: Pool, c: Pool, p: int, n: nat, m: nat)
    requires Id(p) && Took(a, b, p, n) && Took(b, c, p, m)
    ensures Took(a, c, p, n + m)
  {
    hide Ledger, FreePages;
  }

  lemma TookNothing(a: Pool, p: int)
    requires Id(p)
    ensures Took(a, a, p, 0)
  {
    hide Ledger, FreePages;
  }

  // Palloc, seen as taking from the set of free pages.
  lemma OneTake(s: Pool, p: int)
    requires PmmOk(s.pmm) && Id(p)
    ensures UserPage(s.pmm.cursor) && PmmOk(Alloc(s, p).0.pmm)
    ensures Alloc(s, p).1 == 0 <==> |FreePages(s.pmm)| == 0
    ensures Alloc(s, p).1 != 0 ==> |FreePages(Alloc(s, p).0.pmm)| == |FreePages(s.pmm)| - 1
    ensures Alloc(s, p).1 == 0 ==> |FreePages(Alloc(s, p).0.pmm)| == |FreePages(s.pmm)|
  {
    PallocFirstFit(s.pmm);
    hide Palloc;
    var (s', f) := Alloc(s, p);
    if f != 0 {
      assert f in FreePages(s.pmm);
      assert FreePages(s'.pmm) == FreePages(s.pmm) - {f};
    } else {
      assert FreePages(s.pmm) == {} && FreePages(s'.pmm) == {};
    }
  }

  // alloc_page succeeds exactly when the page, and the table it may need, can be had.
  lemma AllocPageIff(s: Machine, p: int, va: u32, perm: int)
    requires Inv(s) && UserPid(p) && UserVa(va) && 0 <= perm < 4096
    ensures AllocPage(s, p, va, perm).1 != MAGIC_NUMBER <==> Cost(s, p, va) <= |FreePages(s.pool.pmm)|
    ensures AllocPage(s, p, va, perm).1 != MAGIC_NUMBER ==>
      Took(s.pool, AllocPage(s, p, va, perm).0.pool, p, Cost(s, p, va))
  {
    hide Alloc, AllocPage, Ledger, Inv, Present, Pde, Live, FreePages, PdeIdx, PmmOk;
    InvPmm(s);
    OneTake(s.pool, p);
    OneTake(Alloc(s.pool, p).0, p);
    AllocPageInv(s, p, va, perm);
    LiveTable(s, p, va);
    if AllocPage(s, p, va, perm).1 != MAGIC_NUMBER {
      AllocPageMaps(s, p, va, perm);
      if Ledger(s.pool) && s.pool.cs[p].used == 1 {
        AllocPageLedger(s, p, va, perm);
      }
    }
  }

  lemma InvPmm(s: Machine)
    requires Inv(s)
    ensures PmmOk(s.pool.pmm)
  {
  }

  // A container that may consume n pages finds them, and stays within quota after taking them.
  lemma TookSolvent(s: Machine, s': Machine, p: int, n: u32)
    requires Solvent(s) && Inv(s') && Id(p) && (n > 0 ==> s.pool.cs[p].used == 1) && CanConsume(s.pool.cs[p], n)
    requires Took(s.pool, s'.pool, p, n)
    ensures Solvent(s')
  {
    hide Inv, Ledger, FreePages, CanConsume;
    GuardMeans(s.pool, p, n);
  }

  /* ----- missing pages and missing tables ----- */

  predicate UserRange(uva: int, len: int) {
    VM_USERLO <= uva && 0 <= len && uva + len <= VM_USERHI
  }

  // The virtual pages and the directory slots that the addresses [lo, hi) meet.
  function Met(lo: int, hi: int): (vs: set<int>)
    ensures forall v :: v in vs ==> UserPage(v)
  { set v | 0x4_0000 <= v < 0xF_0000 && lo < hi && lo / 4096 <= v && 4096 * v < hi }

  function Slots(lo: int, hi: int): (ds: set<int>)
    ensures forall d :: d in ds ==> UserPde(d)
  { set d | 256 <= d < 960 && lo < hi && lo / 0x40_0000 <= d && 0x40_0000 * d < hi }

  ghost function Unmapped(m: Mem, p: int, vs: set<int>): (r: set<int>)
    requires Pid(p)
  { set v | v in vs && UserPage(v) && !Mapped(m, p, 4096 * v) }

  ghost function Absent(m: Mem, p: int, ds: set<int>): (r: set<int>)
    requires Pid(p)
  { set d | d in ds && UserPde(d) && !Present(Pde(m, p, d)) }

  ghost function Needs(m: Mem, p: int, uva: int, len: int): nat
    requires Pid(p)
  { |Unmapped(m, p, Met(uva, uva + len))| + |Absent(m, p, Slots(uva, uva + len))| }

  // Exactly the tables of these directory slots were added.
  ghost predicate Opened(m: Mem, m': Mem, p: int, ds: set<int>)
    requires Pid(p)
  {
    forall d :: UserPde(d) ==> (Present(Pde(m', p, d)) <==> Present(Pde(m, p, d)) || d in ds)
  }

  lemma OpenedTrans(m: Mem, m1: Mem, m2: Mem, p: int, ds: set<int>, es: set<int>)
    requires Pid(p) && Opened(m, m1, p, ds) && Opened(m1, m2, p, es)
    ensures Opened(m, m2, p, ds + es)
  {
    hide Pde, Present;
  }

  lemma OpenedAbsent(m: Mem, m1: Mem, p: int, ds: set<int>, es: set<int>)
    requires Pid(p) && Opened(m, m1, p, ds)
    ensures |Absent(m, p, ds + es)| == |Absent(m, p, ds)| + |Absent(m1, p, es)|
  {
    hide Pde, Present;
    assert Absent(m, p, ds + es) == Absent(m, p, ds) + Absent(m1, p, es);
    assert Absent(m, p, ds) !! Absent(m1, p, es);
  }

  // Only the page of va changes from unmapped to mapped, and at most its table is added.
  ghost predicate OnePage(m: Mem, m': Mem, p: int, va: u32)
    requires Pid(p)
  {
    && Mapped(m', p, va) && Opened(m, m', p, {PdeIdx(va)})
    && forall v :: UserPage(v) && v != va / 4096 ==> (Mapped(m', p, 4096 * v) <==> Mapped(m, p, 4096 * v))
  }

  function PageNeeds(m: Mem, p: int, va: u32): (n: nat)
    requires Pid(p)
  { (if Mapped(m, p, va) then 0 else 1) + (if Present(Pde(m, p, PdeIdx(va))) then 0 else 1) }

  lemma MappedTable(m: Mem, p: int, va: u32)
    requires Pid(p) && Mapped(m, p, va)
    ensures Present(Pde(m, p, PdeIdx(va))) && PageNeeds(m, p, va) == 0
  {
    AddressParts(va);
    hide Word, PdeIdx, PteIdx;
  }

  // The first page of a range and the rest of it.
  lemma MetSplit(uva: u32, n: int, hi: int)
    requires VM_USERLO <= uva && uva + n <= hi <= VM_USERHI && 0 < n <= 4096 - uva % 4096
    requires uva + n == hi || n == 4096 - uva % 4096
    ensures Met(uva, hi) == {uva / 4096} + Met(uva + n, hi) && uva / 4096 !in Met(uva + n, hi)
    ensures Slots(uva, hi) == {PdeIdx(uva)} + Slots(uva + n, hi)
  {
    AddressParts(uva);
    MetSplitPages(uva, n, hi);
    MetSplitSlots(uva, n, hi);
  }

  lemma NextBoundary(uva: u32, n: int)
    requires n == 4096 - uva % 4096
    ensures uva + n == 4096 * (uva / 4096 + 1) && (uva + n) / 4096 == uva / 4096 + 1
  {
    PageSplit(uva / 4096 + 1, 0);
  }

  lemma MetSplitPages(uva: u32, n: int, hi: int)
    requires VM_USERLO <= uva && uva + n <= hi <= VM_USERHI && 0 < n <= 4096 - uva % 4096
    requires uva + n == hi || n == 4096 - uva % 4096
    ensures Met(uva, hi) == {uva / 4096} + Met(uva + n, hi) && uva / 4096 !in Met(uva + n, hi)
  {
    if n == 4096 - uva % 4096 {
      NextBoundary(uva, n);
    }
    assert 4096 * (uva / 4096) <= uva < 4096 * (uva / 4096) + 4096;
  }

  lemma MetSplitSlots(uva: u32, n: int, hi: int)
    requires VM_USERLO <= uva && uva + n <= hi <= VM_USERHI && 0 < n <= 4096 - uva % 4096
    requires uva + n == hi || n == 4096 - uva % 4096
    ensures Slots(uva, hi) == {PdeIdx(uva)} + Slots(uva + n, hi)
  {
    var d := PdeIdx(uva);
    assert 0x40_0000 * d <= uva < 0x40_0000 * (d + 1);
    if n == 4096 - uva % 4096 {
      NextBoundary(uva, n);
      assert uva + n <= 0x40_0000 * (d + 1);
      SlotBelow(uva, n, d);
    }
  }

  lemma SlotBelow(uva: u32, n: int, d: int)
    requires 0x40_0000 * d <= uva < uva + n <= 0x40_0000 * (d + 1)
    ensures d <= (uva + n) / 0x40_0000 <= d + 1
  {
  }

  // After the first page, exactly the rest of the need is left.
  lemma NeedsStep(m: Mem, m1: Mem, p: int, uva: u32, n: int, len: int)
    requires Pid(p) && UserRange(uva, len) && 0 < n <= len && n <= 4096 - uva % 4096
    requires (n == len || n == 4096 - uva % 4096)
    requires OnePage(m, m1, p, uva)
    ensures Needs(m, p, uva, len) == PageNeeds(m, p, uva) + Needs(m1, p, uva + n, len - n)
  {
    hide Mapped, Pde, Present, Met, Slots, PdeIdx, Opened;
    var hi := uva + len;
    MetSplit(uva, n, hi);
    AddressParts(uva);
    FirstPage(m, m1, p, uva, Met(uva + n, hi));
    OpenedAbsent(m, m1, p, {PdeIdx(uva)}, Slots(uva + n, hi));
    OneAbsent(m, p, PdeIdx(uva));
  }

  lemma FirstPage(m: Mem, m1: Mem, p: int, uva: u32, vs: set<int>)
    requires Pid(p) && UserVa(uva) && OnePage(m, m1, p, uva) && uva / 4096 !in vs
    ensures |Unmapped(m, p, {uva / 4096} + vs)| == (if Mapped(m, p, uva) then 0 else 1) + |Unmapped(m1, p, vs)|
  {
    hide Mapped, Opened;
    var v := uva / 4096;
    SamePageMapped(m, p, uva);
    assert Unmapped(m, p, {v} + vs) == (if Mapped(m, p, uva) then {} else {v}) + Unmapped(m1, p, vs);
  }

  lemma OneAbsent(m: Mem, p: int, d: int)
    requires Pid(p) && UserPde(d)
    ensures |Absent(m, p, {d})| == if Present(Pde(m, p, d)) then 0 else 1
  {
    hide Pde, Present;
    assert Absent(m, p, {d}) == if Present(Pde(m, p, d)) then {} else {d};
  }

  lemma SamePageMapped(m: Mem, p: int, va: u32)
    requires Pid(p)
    ensures Mapped(m, p, 4096 * (va / 4096)) <==> Mapped(m, p, va)
  {
    PageSplit(va / 4096, 0);
    SamePage(4096 * (va / 4096), va);
    hide Pte;
  }

  lemma NoNeeds(m: Mem, p: int, uva: int)
    requires Pid(p)
    ensures Needs(m, p, uva, 0) == 0 && Slots(uva, uva) == {}
  {
    assert Met(uva, uva) == {} && Slots(uva, uva) == {};
  }

  lemma MappedNeedsNothing(m: Mem, p: int, uva: int, len: int)
    requires UserPid(p) && UserRange(uva, len) && forall vb: u32 :: uva <= vb < uva + len ==> Mapped(m, p, vb)
    ensures Needs(m, p, uva, len) == 0
  {
    hide Mapped, Pde, Present;
    forall v | v in Met(uva, uva + len)
      ensures Mapped(m, p, 4096 * v)
    {
      var vb: u32 := Max(uva, 4096 * v);
      PageOf(uva, v);
      SamePageMapped(m, p, vb);
      assert Mapped(m, p, vb);
    }
    forall d | d in Slots(uva, uva + len)
      ensures Present(Pde(m, p, d))
    {
      var vb: u32 := Max(uva, 0x40_0000 * d);
      SlotOfAddress(uva, d);
      assert Mapped(m, p, vb);
      MappedTable(m, p, vb);
    }
    assert Unmapped(m, p, Met(uva, uva + len)) == {} && Absent(m, p, Slots(uva, uva + len)) == {};
  }

  lemma PageOf(uva: int, v: int)
    requires uva / 4096 <= v
    ensures Max(uva, 4096 * v) / 4096 == v
  {
  }

  lemma SlotOfAddress(uva: int, d: int)
    requires uva / 0x40_0000 <= d
    ensures Max(uva, 0x40_0000 * d) / 0x40_0000 == d
  {
  }
}
