// The ledger across the page-map layer: what alloc_page, alloc_ptbl and free_ptbl do to accounts, and
// why a container that may consume two pages never sees alloc_page fail.
module Quota {
  import opened Words
  import opened PageAllocator
  import opened Containers
  import opened PageTables
  import opened PageMaps

  // Invariant of the machine together with balanced accounts.
  ghost predicate Accounted(s: Machine) {
    Inv(s) && Ledger(s.pool)
  }

  predicate InUse(s: Machine, p: int) {
    UserPid(p) && s.pool.cs[p].used == 1
  }

  // Pages alloc_page takes for a user address: one, and one more when the table is missing.
  function Cost(s: Machine, p: int, va: u32): int
    requires Pid(p)
  {
    if Present(Pde(s.mem, p, PdeIdx(va))) then 1 else 2
  }

  function Charged(s: Machine, s': Machine, p: int, n: int): bool
    requires Pid(p)
  {
    s'.pool.cs == s.pool.cs[p := s.pool.cs[p].(usage := s.pool.cs[p].usage + n)]
  }

  lemma CursorInRange(s: Pool)
    requires Ledger(s)
    ensures UserPage(s.pmm.cursor)
  {
  }

  // Allocating a page for a container in use: charged by one, or no page was free.
  lemma OneAlloc(s: Pool, p: int)
    requires Ledger(s) && Id(p) && s.cs[p].used == 1
    ensures UserPage(s.pmm.cursor)
    ensures var (s1, f) := Alloc(s, p); Ledger(s1) && UserPage(s1.pmm.cursor)
    ensures Alloc(s, p).1 == 0 ==> |FreePages(s.pmm)| == 0
    ensures Alloc(s, p).1 != 0 ==> Alloc(s, p).0.cs == s.cs[p := s.cs[p].(usage := s.cs[p].usage + 1)]
    ensures Alloc(s, p).1 != 0 ==> |FreePages(Alloc(s, p).0.pmm)| == |FreePages(s.pmm)| - 1
  {
    CursorInRange(s);
    AllocLedger(s, p);
    CursorInRange(Alloc(s, p).0);
    hide Alloc, Ledger, FreePages, UserPage;
  }

  lemma TwoCharges(s: Pool, p: int)
    requires Ledger(s) && Id(p) && s.cs[p].used == 1 && UserPage(s.pmm.cursor) && Alloc(s, p).1 != 0
    requires UserPage(Alloc(s, p).0.pmm.cursor) && Alloc(Alloc(s, p).0, p).1 != 0
    ensures Alloc(Alloc(s, p).0, p).0.cs == s.cs[p := s.cs[p].(usage := s.cs[p].usage + 2)]
    ensures Ledger(Alloc(Alloc(s, p).0, p).0)
  {
    OneAlloc(s, p);
    hide Alloc, Ledger, FreePages, UserPage;
    OneAlloc(Alloc(s, p).0, p);
  }

  lemma SucceededLedger(s: Machine, p: int, va: u32, perm: int)
    requires Accounted(s) && InUse(s, p) && UserVa(va) && 0 <= perm < 4096
    requires AllocPage(s, p, va, perm).1 != MAGIC_NUMBER
    ensures Ledger(AllocPage(s, p, va, perm).0.pool) && Charged(s, AllocPage(s, p, va, perm).0, p, Cost(s, p, va))
  {
    CursorInRange(s.pool);
    PoolAfter(s, p, va, perm);
    LiveTable(s, p, va);
    ChargedFor(s, AllocPage(s, p, va, perm).0, p, Cost(s, p, va));
  }

  // The accounts after one or two allocations.
  lemma ChargedFor(s: Machine, s': Machine, p: int, n: int)
    requires Ledger(s.pool) && Id(p) && s.pool.cs[p].used == 1 && UserPage(s.pool.pmm.cursor)
    requires Alloc(s.pool, p).1 != 0 && UserPage(Alloc(s.pool, p).0.pmm.cursor)
    requires n == 1 || (n == 2 && Alloc(Alloc(s.pool, p).0, p).1 != 0)
    requires s'.pool == if n == 1 then Alloc(s.pool, p).0 else Alloc(Alloc(s.pool, p).0, p).0
    ensures Ledger(s'.pool) && Charged(s, s', p, n)
  {
    hide Ledger, Alloc, UserPage;
    if n == 1 {
      OneAlloc(s.pool, p);
    } else {
      TwoCharges(s.pool, p);
    }
  }

  lemma PoolAfter(s: Machine, p: int, va: u32, perm: int)
    requires Inv(s) && UserPid(p) && UserVa(va) && 0 <= perm < 4096 && UserPage(s.pool.pmm.cursor)
    requires AllocPage(s, p, va, perm).1 != MAGIC_NUMBER
    ensures Alloc(s.pool, p).1 != 0 && UserPage(Alloc(s.pool, p).0.pmm.cursor)
    ensures Live(s.mem, TableOf(p, va)) ==> AllocPage(s, p, va, perm).0.pool == Alloc(s.pool, p).0
    ensures !Live(s.mem, TableOf(p, va)) ==> Alloc(Alloc(s.pool, p).0, p).1 != 0
    ensures !Live(s.mem, TableOf(p, va)) ==> AllocPage(s, p, va, perm).0.pool == Alloc(Alloc(s.pool, p).0, p).0
  {
    AllocForMap(s, p);
    AllocPageInv(s, p, va, perm);
    AllocPageMaps(s, p, va, perm);
    hide Alloc, AllocPage, TablesOk, Backed, Maps, Entry, HeldSpare;
  }

  lemma ExhaustedPages(s: Machine, p: int, va: u32, perm: int)
    requires Accounted(s) && InUse(s, p) && UserVa(va) && 0 <= perm < 4096
    requires AllocPage(s, p, va, perm).1 == MAGIC_NUMBER
    ensures |FreePages(s.pool.pmm)| < Cost(s, p, va)
  {
    AllocPageInv(s, p, va, perm);
    LiveTable(s, p, va);
    OneAlloc(s.pool, p);
    hide Alloc, AllocPage, Ledger, Inv, Present, Pde, Live, FreePages, PdeIdx;
    if Alloc(s.pool, p).1 != 0 {
      OneAlloc(Alloc(s.pool, p).0, p);
    }
  }

  lemma AllocPageLedger(s: Machine, p: int, va: u32, perm: int)
    requires Accounted(s) && InUse(s, p) && UserVa(va) && 0 <= perm < 4096
    ensures var (s', r) := AllocPage(s, p, va, perm);
      && Accounted(s')
      && (r != MAGIC_NUMBER ==> Charged(s, s', p, Cost(s, p, va)))
      && (r == MAGIC_NUMBER ==> |FreePages(s.pool.pmm)| < Cost(s, p, va))
  {
    AllocPageInv(s, p, va, perm);
    CursorInRange(s.pool);
    hide Alloc, AllocPage, Ledger, PmmOk, TablesOk, Backed, FreePages, Cost, Charged, Live;
    if AllocPage(s, p, va, perm).1 != MAGIC_NUMBER {
      SucceededLedger(s, p, va, perm);
    } else {
      ExhaustedPages(s, p, va, perm);
      if Alloc(s.pool, p).1 != 0 {
        FailedLedger(s, p, va, perm);
      } else {
        NoPageLedger(s, p, va, perm);
      }
    }
  }

  lemma NoPageLedger(s: Machine, p: int, va: u32, perm: int)
    requires Accounted(s) && InUse(s, p) && UserVa(va) && 0 <= perm < 4096 && Alloc(s.pool, p).1 == 0
    ensures Ledger(AllocPage(s, p, va, perm).0.pool)
  {
    OneAlloc(s.pool, p);
    hide Alloc, Inv, Ledger;
  }

  lemma LiveTable(s: Machine, p: int, va: u32)
    requires UserPid(p) && UserVa(va)
    ensures Live(s.mem, TableOf(p, va)) <==> Present(Pde(s.mem, p, PdeIdx(va)))
  {
  }

  lemma FailedLedger(s: Machine, p: int, va: u32, perm: int)
    requires Accounted(s) && InUse(s, p) && UserVa(va) && 0 <= perm < 4096
    requires AllocPage(s, p, va, perm).1 == MAGIC_NUMBER && Alloc(s.pool, p).1 != 0
    ensures Ledger(AllocPage(s, p, va, perm).0.pool)
  {
    var (pool, f) := Alloc(s.pool, p);
    var s1 := s.(pool := pool);
    var (s2, r) := MapPage(s1, p, va, f, perm);
    AllocForMap(s, p);
    MapPageView(s1, p, va, f, perm);
    MapPageInv(s1, p, va, f, perm);
    hide Alloc, MapPage, Inv, Ledger, Maps, Release;
    AllocLedger(s.pool, p);
    assert UserPage(s2.pool.pmm.cursor) by { CursorOk(s2); }
    CursorLedger(pool, s2.pool.pmm.cursor);
    assert s2.pool == pool.(pmm := pool.pmm.(cursor := s2.pool.pmm.cursor));
    ReleaseLedger(s2.pool, p, f);
  }

  lemma CursorOk(s: Machine)
    requires Inv(s)
    ensures UserPage(s.pool.pmm.cursor)
  {
  }

  // Accounts balance and nobody is over quota.
  ghost predicate Solvent(s: Machine) {
    Accounted(s) && WithinQuota(s.pool)
  }

  // Quota is a real promise: a process that may consume what the mapping costs (never more than two
  // pages) gets the page, and everybody stays within quota.
  lemma AllocPagePromise(s: Machine, p: int, va: u32, perm: int)
    requires Solvent(s) && InUse(s, p) && UserVa(va) && 0 <= perm < 4096
    requires CanConsume(s.pool.cs[p], Cost(s, p, va))
    ensures var (s', r) := AllocPage(s, p, va, perm);
      r != MAGIC_NUMBER && Solvent(s') && Charged(s, s', p, Cost(s, p, va))
  {
    AllocPageLedger(s, p, va, perm);
    QuotaIsPromise(s.pool, p, Cost(s, p, va));
    GuardMeans(s.pool, p, Cost(s, p, va));
    hide Inv, Ledger, AllocPage, CanConsume, FreePages, Cost;
    ChargedWithin(s, AllocPage(s, p, va, perm).0, p, Cost(s, p, va));
  }

  lemma ChargedWithin(s: Machine, s': Machine, p: int, n: int)
    requires WithinQuota(s.pool) && Id(p) && Charged(s, s', p, n) && s.pool.cs[p].usage + n <= s.pool.cs[p].quota
    ensures WithinQuota(s'.pool)
  {
  }

  // The documented guard container_can_consume(p, 2) is enough for any address.
  lemma TwoPagesSuffice(s: Machine, p: int, va: u32, perm: int)
    requires Solvent(s) && InUse(s, p) && UserVa(va) && 0 <= perm < 4096 && CanConsume(s.pool.cs[p], 2)
    ensures AllocPage(s, p, va, perm).1 != MAGIC_NUMBER && Solvent(AllocPage(s, p, va, perm).0)
  {
    hide Solvent, AllocPage;
    AllocPagePromise(s, p, va, perm);
  }

  lemma AllocPtblLedger(s: Machine, p: int, va: u32)
    requires Accounted(s) && InUse(s, p) && UserVa(va)
    ensures var (s', f) := AllocPtbl(s, p, va);
      && Accounted(s')
      && (f == 0 ==> |FreePages(s.pool.pmm)| == 0)
      && (f != 0 ==> Charged(s, s', p, 1))
  {
    CursorInRange(s.pool);
    AllocPtblInv(s, p, va);
    OneAlloc(s.pool, p);
    hide Inv, AllocPtbl, Alloc, Ledger, FreePages, Charged, UserPage, Live, NewTableEntry;
    if Alloc(s.pool, p).1 != 0 {
      ChargedFor(s, AllocPtbl(s, p, va).0, p, 1);
    }
  }

  lemma AllocPtblPromise(s: Machine, p: int, va: u32)
    requires Solvent(s) && InUse(s, p) && UserVa(va) && CanConsume(s.pool.cs[p], 1)
    ensures AllocPtbl(s, p, va).1 != 0 && Solvent(AllocPtbl(s, p, va).0)
  {
    AllocPtblLedger(s, p, va);
    QuotaIsPromise(s.pool, p, 1);
    GuardMeans(s.pool, p, 1);
    hide Inv, Ledger, AllocPtbl, CanConsume, FreePages;
    ChargedWithin(s, AllocPtbl(s, p, va).0, p, 1);
  }

  // free_ptbl returns the table's page to the account that paid for it, or changes no account.
  lemma FreePtblLedger(s: Machine, p: int, va: u32)
    requires Accounted(s) && InUse(s, p) && UserVa(va)
    ensures Accounted(FreePtbl(s, p, va))
    ensures Charged(s, FreePtbl(s, p, va), p, if Live(s.mem, TableOf(p, va)) then -1 else 0)
    ensures WithinQuota(s.pool) ==> WithinQuota(FreePtbl(s, p, va).pool)
  {
    FreePtblInv(s, p, va);
    ReleaseCharges(s, FreePtbl(s, p, va), p, Pde(s.mem, p, PdeIdx(va)) / 4096);
    hide Inv, Ledger, Release, Pde, PdeIdx, Live;
  }

  lemma ReleaseCharges(s: Machine, s': Machine, p: int, page: int)
    requires Ledger(s.pool) && Id(p) && Page(page) && s'.pool == Release(s.pool, p, page)
    requires Allocated(s.pool.pmm, page) ==> s.pool.owner[page] == p
    ensures Ledger(s'.pool) && Charged(s, s', p, if Allocated(s.pool.pmm, page) then -1 else 0)
    ensures WithinQuota(s.pool) ==> WithinQuota(s'.pool)
  {
    hide Ledger, Release;
    ReleaseLedger(s.pool, p, page);
  }

  lemma AllocMemQuotaLedger(s: Machine, id: int, quota: u32)
    requires Accounted(s) && SplitGuard(s.pool, id, quota)
    ensures Accounted(AllocMemQuota(s, id, quota).0)
    ensures WithinQuota(s.pool) ==> WithinQuota(AllocMemQuota(s, id, quota).0.pool)
  {
    SplitLedger(s.pool, id, quota);
    hide Ledger, Split, TablesOk, PmmOk;
  }

  // The first process: right after boot the root can hand n of its pages to container 1, which may then
  // consume all of them and map its first page anywhere in the user range.
  lemma FirstProcess(s: Machine, n: u32, va: u32, perm: int)
    requires Solvent(s) && s.pool.cs == BootContainers(|NormalPages(s.pool.pmm)|)
    requires 2 <= n <= |NormalPages(s.pool.pmm)| && UserVa(va) && 0 <= perm < 4096
    ensures var (s1, child) := AllocMemQuota(s, 0, n);
      && child == 1 && Solvent(s1) && InUse(s1, 1) && CanConsume(s1.pool.cs[1], n)
      && AllocPage(s1, 1, va, perm).1 != MAGIC_NUMBER
  {
    var (s1, child) := AllocMemQuota(s, 0, n);
    hide Inv, Ledger, AllocPage, CanConsume, PmmOk, Split;
    GuardMeans(s.pool, 0, n);
    AllocMemQuotaLedger(s, 0, n);
    FirstSplit(s.pool, n);
    assert PmmOk(s1.pool.pmm) by { Usable(s1); }
    GuardMeans(s1.pool, 1, n);
    GuardMeans(s1.pool, 1, 2);
    TwoPagesSuffice(s1, 1, va, perm);
  }

  lemma Usable(s: Machine)
    requires Solvent(s)
    ensures PmmOk(s.pool.pmm)
  {
  }

  lemma FirstSplit(s: Pool, n: u32)
    requires Ledger(s) && s.cs == BootContainers(|NormalPages(s.pmm)|) && n <= |NormalPages(s.pmm)|
    ensures Split(s.cs, 0, n).1 == 1 && Split(s.cs, 0, n).0[1] == Container(n, 0, 0, 0, 1)
  {
    hide Ledger, ToU32, ToI32;
    QuotaBound(s, 0);
    NoWrap(1);
    NoWrap(n);
  }
}
