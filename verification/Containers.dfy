// kern/pmm/MContainer: the tree of quotas, and the ledger that ties it to the page allocator.
module Containers {
  import opened Words
  import opened FirmwareMap
  import opened PageAllocator

  const NUM_CONTAINERS := 64
  const MAX_CHILDREN := 3

  datatype Container = Container(quota: int, usage: int, parent: int, nchildren: int, used: int)
  const UNUSED := Container(0, 0, 0, 0, 0)

  type ContainerTable = c: seq<Container> | |c| == NUM_CONTAINERS ghost witness seq(NUM_CONTAINERS, _ => UNUSED)
  type Owners = o: seq<int> | |o| == AT_SIZE ghost witness seq(AT_SIZE, _ => 0)

  // owner is a history variable: the container each page was last allocated for.
  datatype Pool = Pool(pmm: Pmm, cs: ContainerTable, owner: Owners)

  predicate Id(c: int) { 0 <= c < 64 }

  /* ----- operations ----- */

  // Unsigned subtraction: meaningful only while usage <= quota.
  predicate CanConsume(c: Container, n: u32) {
    ToU32(ToU32(c.quota) - ToU32(c.usage)) >= n
  }

  function Split(cs: ContainerTable, id: int, q: u32): (ContainerTable, int)
    requires Id(id)
  {
    var nc := cs[id].nchildren;
    var child := ToU32(id * MAX_CHILDREN + 1 + nc);
    if NUM_CONTAINERS <= child then (cs, NUM_CONTAINERS)
    else
      var cs1 := cs[id := cs[id].(usage := ToI32(cs[id].usage + q), nchildren := ToI32(nc + 1))];
      (cs1[child := Container(ToI32(q), 0, id, 0, 1)], child)
  }

  function Charge(cs: ContainerTable, id: int, n: int): ContainerTable
    requires Id(id)
  { cs[id := cs[id].(usage := ToI32(cs[id].usage + n))] }

  function Alloc(s: Pool, id: int): (Pool, int)
    requires Id(id) && UserPage(s.pmm.cursor)
  {
    var (pmm, f) := Palloc(s.pmm);
    if f == 0 then (s.(pmm := pmm), 0) else (Pool(pmm, Charge(s.cs, id, 1), s.owner[f := id]), f)
  }

  function Release(s: Pool, id: int, page: int): Pool
    requires Id(id) && Page(page)
  {
    if Allocated(s.pmm, page) then s.(pmm := SetAllocated(s.pmm, page, 0), cs := Charge(s.cs, id, -1)) else s
  }

  /* ----- the tree ----- */

  function Parent(j: int): int { (j - 1) / 3 }

  // In use means: 0, or one of the first nchildren child slots of its parent.
  ghost predicate Tree(cs: ContainerTable) {
    && cs[0].used == 1 && cs[0].parent == 0
    && (forall c :: Id(c) ==> 0 <= cs[c].nchildren <= 3 && (cs[c].nchildren > 0 ==> 3 * c + cs[c].nchildren <= 63))
    && (forall c :: Id(c) && cs[c].used != 1 ==> cs[c].quota == 0 && cs[c].nchildren == 0)
    && (forall j {:trigger Parent(j)} :: 1 <= j < 64 ==> (cs[j].used == 1 <==> (j - 1) % 3 < cs[Parent(j)].nchildren))
    && (forall j {:trigger Parent(j)} :: 1 <= j < 64 && cs[j].used == 1 ==> cs[j].parent == Parent(j))
  }

  function Ancestor(cs: ContainerTable, c: int, n: nat): int
    decreases n
  {
    if n == 0 || !Id(c) then c else Ancestor(cs, cs[c].parent, n - 1)
  }

  // Following parent pointers from any container in use reaches the root through containers in use.
  lemma {:induction false} TreeRooted(cs: ContainerTable, c: int)
    requires Tree(cs) && Id(c) && cs[c].used == 1
    ensures Ancestor(cs, c, c) == 0
    ensures c > 0 ==> cs[c].parent == Parent(c) && cs[Parent(c)].used == 1 && Parent(c) < c
    decreases c
  {
    if c > 0 {
      var p := cs[c].parent;
      assert p == Parent(c) && cs[p].nchildren > 0;
      TreeRooted(cs, p);
      AncestorOfRoot(cs, p, p, c - 1 - p);
    }
  }

  lemma {:induction false} AncestorOfRoot(cs: ContainerTable, c: int, n: nat, m: nat)
    requires cs[0].parent == 0 && Ancestor(cs, c, n) == 0
    ensures Ancestor(cs, c, n + m) == 0
    decreases n + m
  {
    if n > 0 && Id(c) {
      AncestorOfRoot(cs, cs[c].parent, n - 1, m);
    } else if n == 0 && m > 0 {
      AncestorOfRoot(cs, 0, 0, m - 1);
    }
  }

  lemma ChildSlot(id: int, nc: int)
    requires 0 <= nc < 3
    ensures Parent(3 * id + 1 + nc) == id && (3 * id + nc) % 3 == nc
  {
  }

  // container_split on a tree, without the 32-bit conversions of small numbers.
  lemma SplitShape(cs: ContainerTable, id: int, q: u32)
    requires Tree(cs) && Id(id)
    ensures var child := 3 * id + 1 + cs[id].nchildren;
      Split(cs, id, q) == if child >= 64 then (cs, 64) else
        (cs[id := cs[id].(usage := ToI32(cs[id].usage + q), nchildren := cs[id].nchildren + 1)]
           [child := Container(ToI32(q), 0, id, 0, 1)], child)
  {
    hide ToU32, ToI32;
    NoWrap(cs[id].nchildren + 1);
    NoWrap(3 * id + 1 + cs[id].nchildren);
  }

  // container_split tests neither whether the parent is in use nor nchildren against MAX_CHILDREN. It keeps
  // the tree exactly when the child's id is out of range, so that nothing is done, or both are as they should.
  lemma SplitKeepsTreeIff(cs: ContainerTable, id: int, q: u32)
    requires Tree(cs) && Id(id)
    ensures Tree(Split(cs, id, q).0)
      <==> 3 * id + 1 + cs[id].nchildren >= 64 || (cs[id].used == 1 && cs[id].nchildren < 3)
  {
    SplitShape(cs, id, q);
    if cs[id].used == 1 && cs[id].nchildren < 3 {
      SplitKeepsTree(cs, id, q);
    } else if 3 * id + 1 + cs[id].nchildren < 64 {
      StrayChild(cs, id, q);
    }
  }

  // A fourth child lands in the next container's slots; a parent that is not in use has no business with one.
  lemma StrayChild(cs: ContainerTable, id: int, q: u32)
    requires Tree(cs) && Id(id) && 3 * id + 1 + cs[id].nchildren < 64 && !(cs[id].used == 1 && cs[id].nchildren < 3)
    ensures !Tree(Split(cs, id, q).0)
  {
    SplitShape(cs, id, q);
    hide Split;
    var cs' := Split(cs, id, q).0;
    assert cs'[id].nchildren == cs[id].nchildren + 1;
  }

  lemma SplitKeepsTree(cs: ContainerTable, id: int, q: u32)
    requires Tree(cs) && Id(id) && cs[id].used == 1 && cs[id].nchildren < 3
    ensures Tree(Split(cs, id, q).0)
  {
    SplitShape(cs, id, q);
    hide Split, ToI32;
    var nc := cs[id].nchildren;
    var child := 3 * id + 1 + nc;
    if child < 64 {
      var cs' := Split(cs, id, q).0;
      ChildSlot(id, nc);
      forall j | 1 <= j < 64
        ensures cs'[j].used == 1 <==> (j - 1) % 3 < cs'[Parent(j)].nchildren
      {
        assert cs[j].used == 1 <==> (j - 1) % 3 < cs[Parent(j)].nchildren;
      }
    }
  }

  // A guarded split takes a slot never used before, or changes nothing.
  lemma SplitFresh(cs: ContainerTable, id: int, q: u32)
    requires Tree(cs) && Id(id) && cs[id].used == 1 && cs[id].nchildren < 3
    ensures var (cs', child) := Split(cs, id, q);
      if child == NUM_CONTAINERS then cs' == cs
      else
        && 1 <= child < 64 && Parent(child) == id && cs[child].used != 1
        && cs'[child] == Container(ToI32(q), 0, id, 0, 1)
  {
    SplitShape(cs, id, q);
    hide Split, ToI32;
    ChildSlot(id, cs[id].nchildren);
  }

  /* ----- the ledger ----- */

  ghost function Owned(s: Pool, c: int): set<int> {
    set i | 0 <= i < 0x10_0000 && Allocated(s.pmm, i) && s.owner[i] == c
  }

  ghost function NormalPages(s: Pmm): set<int> {
    set i | 0 <= i < 0x10_0000 && Normal(s, i)
  }

  ghost function FreePages(s: Pmm): set<int> {
    set i | 0 <= i < 0x10_0000 && Free(s, i)
  }

  ghost function AllocatedPages(s: Pmm): set<int> {
    set i | 0 <= i < 0x10_0000 && Allocated(s, i)
  }

  function ChildQuota(cs: ContainerTable, c: int, k: int): int
    requires Id(c)
  {
    if k < cs[c].nchildren && 0 <= 3 * c + 1 + k < 64 then cs[3 * c + 1 + k].quota else 0
  }

  // The quotas handed to the children of c.
  function ChildSum(cs: ContainerTable, c: int): int
    requires Id(c)
  {
    ChildQuota(cs, c, 0) + ChildQuota(cs, c, 1) + ChildQuota(cs, c, 2)
  }

  // Usage is exactly what was handed to children plus the frames the container holds.
  ghost predicate Balanced(s: Pool) {
    forall c {:trigger ChildSum(s.cs, c)} {:trigger Owned(s, c)} :: Id(c) ==>
      s.cs[c].usage == ChildSum(s.cs, c) + |Owned(s, c)|
  }

  // No container handed out more than it was given.
  ghost predicate Funded(cs: ContainerTable) {
    forall c {:trigger ChildSum(cs, c)} :: Id(c) ==> 0 <= ChildSum(cs, c) <= cs[c].quota
  }

  ghost predicate OwnersInUse(s: Pool) {
    forall i :: Page(i) && Allocated(s.pmm, i) ==> Id(s.owner[i]) && s.cs[s.owner[i]].used == 1
  }

  ghost predicate Ledger(s: Pool) {
    && PmmOk(s.pmm) && Tree(s.cs) && Balanced(s) && Funded(s.cs) && OwnersInUse(s)
    && s.cs[0].quota == |NormalPages(s.pmm)|
  }

  ghost predicate WithinQuota(s: Pool) {
    forall c :: Id(c) ==> s.cs[c].usage <= s.cs[c].quota
  }

  lemma PagesBound(a: set<int>)
    requires forall i :: i in a ==> Page(i)
    ensures |a| <= 0x10_0000
  {
    RangeSize(0x10_0000, a);
  }

  lemma {:induction false} RangeSize(n: nat, a: set<int>)
    requires forall i :: i in a ==> 0 <= i < n
    ensures |a| <= n
  {
    if n > 0 {
      RangeSize(n - 1, a - {n - 1});
      assert a == (a - {n - 1}) + (a * {n - 1}) && |a * {n - 1}| <= 1 by {
        assert a * {n - 1} == if n - 1 in a then {n - 1} else {};
      }
    } else {
      forall i
        ensures i !in a
      {
      }
      assert a == {};
    }
  }

  // No container's quota exceeds the root's, which is at most the size of the page table.
  lemma {:induction false} QuotaBound(s: Pool, c: int)
    requires Ledger(s) && Id(c)
    ensures s.cs[c].quota <= 0x10_0000
    decreases c
  {
    if c == 0 {
      PagesBound(NormalPages(s.pmm));
    } else if s.cs[c].used == 1 {
      var p := Parent(c);
      QuotaBound(s, p);
      QuotasNat(s);
      ChildWithinSum(s.cs, c);
    }
  }

  lemma QuotasNat(s: Pool)
    requires Ledger(s)
    ensures forall c :: Id(c) ==> 0 <= s.cs[c].quota
  {
    forall c | Id(c)
      ensures 0 <= s.cs[c].quota
    {
      assert 0 <= ChildSum(s.cs, c);
    }
  }

  lemma ChildWithinSum(cs: ContainerTable, j: int)
    requires Tree(cs) && 1 <= j < 64 && cs[j].used == 1 && forall c :: Id(c) ==> 0 <= cs[c].quota
    ensures cs[j].quota <= ChildSum(cs, Parent(j))
  {
    var p := Parent(j);
    assert j == 3 * p + 1 || j == 3 * p + 2 || j == 3 * p + 3;
    hide Parent, Tree, ChildSum;
    ChildSumAllSlots(cs, p);
  }

  lemma GuardArithmetic(c: Container, n: u32)
    requires 0 <= c.usage <= c.quota < 0x8000_0000
    ensures CanConsume(c, n) <==> n <= c.quota - c.usage
  {
    NoWrap(c.usage);
    NoWrap(c.quota);
    NoWrap(c.quota - c.usage);
    hide ToU32;
  }

  // The unsigned guard means what it says for every request exactly when usage is within quota, whatever the
  // two 32-bit fields hold; past the quota it admits requests that no account covers.
  lemma GuardExact(c: Container)
    requires IsInt(c.usage) && IsInt(c.quota)
    ensures (forall n: u32 :: CanConsume(c, n) <==> n <= c.quota - c.usage) <==> c.usage <= c.quota
  {
    UnsignedRest(c);
    hide ToU32;
    if c.usage > c.quota {
      assert CanConsume(c, 0);
    }
  }

  lemma UnsignedRest(c: Container)
    requires IsInt(c.usage) && IsInt(c.quota)
    ensures ToU32(ToU32(c.quota) - ToU32(c.usage))
         == if c.usage <= c.quota then c.quota - c.usage else c.quota - c.usage + 0x1_0000_0000
  {
  }

  // On a ledger no 32-bit conversion matters, so the unsigned guard is the honest one.
  lemma GuardMeans(s: Pool, c: int, n: u32)
    requires Ledger(s) && Id(c) && s.cs[c].usage <= s.cs[c].quota
    ensures CanConsume(s.cs[c], n) <==> n <= s.cs[c].quota - s.cs[c].usage
    ensures 0 <= s.cs[c].usage <= s.cs[c].quota <= 0x10_0000
  {
    QuotaBound(s, c);
    UsageBound(s, c);
    hide ChildSum, Owned, CanConsume, Tree, PmmOk;
    GuardArithmetic(s.cs[c], n);
  }

  lemma UsageBound(s: Pool, c: int)
    requires Ledger(s) && Id(c)
    ensures 0 <= s.cs[c].usage <= 0x20_0000
  {
    QuotaBound(s, c);
    PagesBound(Owned(s, c));
    hide ChildSum, Owned, Tree, PmmOk;
  }

  /* ----- every operation keeps the ledger ----- */

  lemma ChargeShape(s: Pool, id: int, n: int)
    requires Ledger(s) && Id(id) && -1 <= n <= 1 && 0 <= s.cs[id].usage + n
    ensures Charge(s.cs, id, n) == s.cs[id := s.cs[id].(usage := s.cs[id].usage + n)]
  {
    UsageBound(s, id);
    NoWrap(s.cs[id].usage + n);
  }

  // A changed usage field moves neither the tree nor any quota.
  lemma UsageOnly(cs: ContainerTable, cs': ContainerTable)
    requires Tree(cs)
    requires forall c :: Id(c) ==> cs'[c].(usage := 0) == cs[c].(usage := 0)
    ensures Tree(cs')
    ensures forall c :: Id(c) ==> ChildSum(cs', c) == ChildSum(cs, c)
  {
  }

  // A page changing hands: only container id's frames differ, by exactly that page.
  lemma OwnedAfterAlloc(s: Pool, s': Pool, id: int, f: int)
    requires Page(f) && Free(s.pmm, f) && s'.owner == s.owner[f := id]
    requires s'.pmm.at == s.pmm.at[f := PageInfo(s.pmm.at[f].perm, 1)]
    ensures Owned(s', id) == Owned(s, id) + {f} && |Owned(s', id)| == |Owned(s, id)| + 1
    ensures forall c :: c != id ==> Owned(s', c) == Owned(s, c)
    ensures NormalPages(s'.pmm) == NormalPages(s.pmm) && FreePages(s'.pmm) == FreePages(s.pmm) - {f}
    ensures f in FreePages(s.pmm)
  {
    assert Owned(s', id) == Owned(s, id) + {f} && f !in Owned(s, id);
  }

  lemma OwnedAfterRelease(s: Pool, s': Pool, id: int, f: int)
    requires Page(f) && Allocated(s.pmm, f) && s.owner[f] == id && s'.owner == s.owner
    requires s'.pmm.at == s.pmm.at[f := PageInfo(s.pmm.at[f].perm, 0)]
    ensures Owned(s', id) == Owned(s, id) - {f} && |Owned(s', id)| == |Owned(s, id)| - 1
    ensures forall c :: c != id ==> Owned(s', c) == Owned(s, c)
    ensures NormalPages(s'.pmm) == NormalPages(s.pmm)
    ensures Normal(s.pmm, f) ==> FreePages(s'.pmm) == FreePages(s.pmm) + {f}
  {
    assert Owned(s', id) == Owned(s, id) - {f} && f in Owned(s, id);
  }

  // container_alloc keeps the ledger; it fails only when no free page is left.
  lemma AllocLedger(s: Pool, id: int)
    requires Ledger(s) && Id(id) && s.cs[id].used == 1
    ensures var (s', f) := Alloc(s, id);
      && Ledger(s')
      && (f == 0 ==> s' == s.(pmm := s.pmm.(cursor := 0x4_0000)) && FreePages(s.pmm) == {})
      && (f != 0 ==> f in FreePages(s.pmm) && FreePages(s'.pmm) == FreePages(s.pmm) - {f})
      && (f != 0 ==> s'.cs == s.cs[id := s.cs[id].(usage := s.cs[id].usage + 1)])
  {
    var (s', f) := Alloc(s, id);
    PallocFirstFit(s.pmm);
    if f == 0 {
      CursorLedger(s, 0x4_0000);
      assert FreePages(s.pmm) == {};
      hide Ledger, Palloc;
    } else {
      UsageBound(s, id);
      ChargeShape(s, id, 1);
      assert s'.pmm.at == s.pmm.at[f := PageInfo(s.pmm.at[f].perm, 1)];
      hide Ledger, Palloc, Charge, PmmOk;
      TakePage(s, s', id, f);
    }
  }

  lemma CursorLedger(s: Pool, cursor: int)
    requires Ledger(s) && UserPage(cursor)
    ensures Ledger(s.(pmm := s.pmm.(cursor := cursor)))
  {
    hide Owned, ChildSum, NormalPages, Tree;
    SameOwned(s, s.(pmm := s.pmm.(cursor := cursor)));
  }

  lemma TakePage(s: Pool, s': Pool, id: int, f: int)
    requires Ledger(s) && PmmOk(s'.pmm) && Id(id) && s.cs[id].used == 1 && Page(f) && Free(s.pmm, f)
    requires s'.owner == s.owner[f := id] && s'.cs == s.cs[id := s.cs[id].(usage := s.cs[id].usage + 1)]
    requires s'.pmm.at == s.pmm.at[f := PageInfo(s.pmm.at[f].perm, 1)]
    ensures Ledger(s') && f in FreePages(s.pmm) && FreePages(s'.pmm) == FreePages(s.pmm) - {f}
  {
    hide Owned, ChildSum, NormalPages, FreePages, Tree, PmmOk;
    OwnedAfterAlloc(s, s', id, f);
    UsageOnly(s.cs, s'.cs);
  }

  // container_free keeps the ledger when the page is its own or not allocated: the check it never makes.
  lemma ReleaseLedger(s: Pool, id: int, page: int)
    requires Ledger(s) && Id(id) && Page(page) && (Allocated(s.pmm, page) ==> s.owner[page] == id)
    ensures var s' := Release(s, id, page);
      && Ledger(s')
      && (!Allocated(s.pmm, page) ==> s' == s)
      && (Allocated(s.pmm, page) ==> s'.cs == s.cs[id := s.cs[id].(usage := s.cs[id].usage - 1)])
      && (Allocated(s.pmm, page) ==> FreePages(s'.pmm) == FreePages(s.pmm) + {page})
  {
    hide Ledger, Charge;
    if Allocated(s.pmm, page) {
      HolderUsage(s, id, page);
      ChargeShape(s, id, -1);
      GiveBackPage(s, Release(s, id, page), id, page);
    }
  }

  lemma HolderUsage(s: Pool, id: int, f: int)
    requires Ledger(s) && Id(id) && Page(f) && Allocated(s.pmm, f) && s.owner[f] == id
    ensures s.cs[id].usage >= 1
  {
    hide Tree, PmmOk, OwnersInUse, ChildSum, NormalPages;
    assert f in Owned(s, id);
  }

  lemma GiveBackPage(s: Pool, s': Pool, id: int, f: int)
    requires Ledger(s) && Id(id) && Page(f) && Allocated(s.pmm, f) && s.owner[f] == id
    requires s' == s.(pmm := SetAllocated(s.pmm, f, 0), cs := s.cs[id := s.cs[id].(usage := s.cs[id].usage - 1)])
    ensures Ledger(s') && FreePages(s'.pmm) == FreePages(s.pmm) + {f}
  {
    hide Owned, ChildSum, NormalPages, FreePages, Tree;
    OwnedAfterRelease(s, s', id, f);
    UsageOnly(s.cs, s'.cs);
  }

  // A guarded split: the parent is in use, has a free slot, and can consume the quota.
  ghost predicate SplitGuard(s: Pool, id: int, q: u32) {
    && Id(id) && s.cs[id].used == 1 && s.cs[id].nchildren < 3
    && s.cs[id].usage <= s.cs[id].quota && CanConsume(s.cs[id], q)
  }

  lemma SplitLedger(s: Pool, id: int, q: u32)
    requires Ledger(s) && SplitGuard(s, id, q)
    ensures Ledger(s.(cs := Split(s.cs, id, q).0))
    ensures WithinQuota(s) ==> WithinQuota(s.(cs := Split(s.cs, id, q).0))
  {
    assert Tree(s.cs);
    hide Ledger, Tree, Split, CanConsume, ToI32, ToU32, WithinQuota, Granted;
    GuardMeans(s, id, q);
    SplitIsGrant(s.cs, id, q);
    if 3 * id + 1 + s.cs[id].nchildren < 64 {
      SplitKeepsTree(s.cs, id, q);
      GrantLedger(s, s.(cs := Split(s.cs, id, q).0), id, q);
    }
  }

  lemma SplitIsGrant(cs: ContainerTable, id: int, q: u32)
    requires Tree(cs) && Id(id) && cs[id].used == 1 && cs[id].nchildren < 3
    requires 0 <= cs[id].usage + q < 0x8000_0000 && q < 0x8000_0000
    ensures 3 * id + 1 + cs[id].nchildren >= 64 ==> Split(cs, id, q).0 == cs
    ensures 3 * id + 1 + cs[id].nchildren < 64 ==> CanGrant(cs, id) && Split(cs, id, q).0 == Granted(cs, id, q)
  {
    NoWrap(cs[id].usage + q);
    NoWrap(q);
    SplitShape(cs, id, q);
    SplitFresh(cs, id, q);
    hide Tree, Split, ToI32;
  }

  // The table after handing q of id's quota to child number nchildren.
  function Granted(cs: ContainerTable, id: int, q: int): ContainerTable
    requires Id(id) && 0 <= 3 * id + 1 + cs[id].nchildren < 64
  {
    cs[id := cs[id].(usage := cs[id].usage + q, nchildren := cs[id].nchildren + 1)]
      [3 * id + 1 + cs[id].nchildren := Container(q, 0, id, 0, 1)]
  }

  predicate CanGrant(cs: ContainerTable, id: int) {
    && Id(id) && cs[id].used == 1 && 0 <= cs[id].nchildren < 3 && 3 * id + 1 + cs[id].nchildren < 64
    && cs[3 * id + 1 + cs[id].nchildren].used != 1
  }

  // Handing unspent quota to a first-time child keeps every account balanced and funded.
  lemma GrantAccounts(s: Pool, s': Pool, id: int, q: int)
    requires Ledger(s) && CanGrant(s.cs, id) && 0 <= q <= s.cs[id].quota - s.cs[id].usage
    requires s' == s.(cs := Granted(s.cs, id, q))
    ensures Balanced(s') && Funded(s'.cs)
  {
    hide Tree, PmmOk, OwnersInUse;
    var child := 3 * id + 1 + s.cs[id].nchildren;
    SameOwned(s, s');
    NoFramesUnlessUsed(s, child);
    ChildSumSplit(s.cs, s'.cs, id, q);
    NoChildren(s.cs, child);
    hide ChildSum, Owned;
  }

  lemma NoChildren(cs: ContainerTable, c: int)
    requires Tree(cs) && Id(c) && cs[c].used != 1
    ensures ChildSum(cs, c) == 0
  {
  }

  lemma SameOwned(s: Pool, s': Pool)
    requires s'.owner == s.owner && s'.pmm.at == s.pmm.at
    ensures forall c :: Owned(s', c) == Owned(s, c)
    ensures NormalPages(s'.pmm) == NormalPages(s.pmm)
  {
  }

  lemma GrantLedger(s: Pool, s': Pool, id: int, q: int)
    requires Ledger(s) && CanGrant(s.cs, id) && 0 <= q <= s.cs[id].quota - s.cs[id].usage
    requires s' == s.(cs := Granted(s.cs, id, q)) && Tree(s'.cs)
    ensures Ledger(s') && (WithinQuota(s) ==> WithinQuota(s'))
  {
    hide Balanced, Funded, PmmOk, Tree;
    GrantAccounts(s, s', id, q);
  }

  lemma NoFramesUnlessUsed(s: Pool, c: int)
    requires OwnersInUse(s) && Id(c) && s.cs[c].used != 1
    ensures Owned(s, c) == {}
  {
  }

  lemma ChildSumSplit(cs: ContainerTable, cs': ContainerTable, id: int, q: int)
    requires Tree(cs) && CanGrant(cs, id) && cs' == Granted(cs, id, q)
    ensures forall c :: Id(c) ==> ChildSum(cs', c) == if c == id then ChildSum(cs, c) + q else ChildSum(cs, c)
  {
    forall c | Id(c)
      ensures ChildSum(cs', c) == if c == id then ChildSum(cs, c) + q else ChildSum(cs, c)
    {
      ChildSplit(cs, cs', id, q, c, 0);
      ChildSplit(cs, cs', id, q, c, 1);
      ChildSplit(cs, cs', id, q, c, 2);
      hide ChildQuota, Granted, Tree;
    }
  }

  lemma ChildSplit(cs: ContainerTable, cs': ContainerTable, id: int, q: int, c: int, k: int)
    requires Tree(cs) && CanGrant(cs, id) && Id(c) && 0 <= k < 3 && cs' == Granted(cs, id, q)
    ensures ChildQuota(cs', c, k)
      == if c == id && k == cs[id].nchildren then ChildQuota(cs, c, k) + q else ChildQuota(cs, c, k)
  {
    var child := 3 * id + 1 + cs[id].nchildren;
    assert cs[child].quota == 0 && cs[child].nchildren == 0;
    hide Tree;
  }

  /* ----- conservation ----- */

  function QuotaAt(cs: ContainerTable, j: int): int {
    if Id(j) then cs[j].quota else 0
  }

  function SumQuota(cs: ContainerTable, n: nat): int {
    if n == 0 then 0 else SumQuota(cs, n - 1) + QuotaAt(cs, n - 1)
  }

  function SumUsage(cs: ContainerTable, n: nat): int
    requires n <= |cs|
  {
    if n == 0 then 0 else SumUsage(cs, n - 1) + cs[n-1].usage
  }

  function SumChildren(cs: ContainerTable, n: nat): int
    requires n <= |cs|
  {
    if n == 0 then 0 else SumChildren(cs, n - 1) + ChildSum(cs, n - 1)
  }

  ghost function SumOwned(s: Pool, n: nat): int {
    if n == 0 then 0 else SumOwned(s, n - 1) + |Owned(s, n - 1)|
  }

  ghost function OwnedBelow(s: Pool, n: int): set<int> {
    set i | 0 <= i < 0x10_0000 && Allocated(s.pmm, i) && 0 <= s.owner[i] < n
  }

  lemma {:induction false} SumOwnedCounts(s: Pool, n: nat)
    ensures SumOwned(s, n) == |OwnedBelow(s, n)|
  {
    if n == 0 {
      assert OwnedBelow(s, 0) == {};
    } else {
      SumOwnedCounts(s, n - 1);
      assert OwnedBelow(s, n) == OwnedBelow(s, n - 1) + Owned(s, n - 1) && OwnedBelow(s, n - 1) !! Owned(s, n - 1);
    }
  }

  lemma {:induction false} SumUsageSplits(s: Pool, n: nat)
    requires Balanced(s) && n <= |s.cs|
    ensures SumUsage(s.cs, n) == SumChildren(s.cs, n) + SumOwned(s, n)
  {
    hide ChildSum, Owned;
    if n > 0 {
      SumUsageSplits(s, n - 1);
      assert Id(n - 1);
    }
  }

  // Each container but the root is counted exactly once as somebody's child.
  lemma {:induction false} ChildrenPartition(cs: ContainerTable, n: nat)
    requires Tree(cs) && n <= |cs|
    ensures SumChildren(cs, n) == SumQuota(cs, 3 * n + 1) - cs[0].quota
  {
    if n == 0 {
      assert SumQuota(cs, 0) == 0;
      assert SumQuota(cs, 1) == SumQuota(cs, 0) + QuotaAt(cs, 0);
    } else {
      ChildrenPartition(cs, n - 1);
      var m := 3 * (n - 1) + 1;
      ChildSumAllSlots(cs, n - 1);
      hide ChildSum, QuotaAt, Tree;
      assert SumQuota(cs, m + 1) == SumQuota(cs, m) + QuotaAt(cs, m);
      assert SumQuota(cs, m + 2) == SumQuota(cs, m + 1) + QuotaAt(cs, m + 1);
      assert SumQuota(cs, m + 3) == SumQuota(cs, m + 2) + QuotaAt(cs, m + 2);
    }
  }

  lemma ChildSumAllSlots(cs: ContainerTable, c: int)
    requires Tree(cs) && Id(c)
    ensures ChildSum(cs, c) == QuotaAt(cs, 3 * c + 1) + QuotaAt(cs, 3 * c + 2) + QuotaAt(cs, 3 * c + 3)
  {
    SlotQuota(cs, c, 0);
    SlotQuota(cs, c, 1);
    SlotQuota(cs, c, 2);
    hide ChildQuota, QuotaAt, Tree;
  }

  lemma SlotQuota(cs: ContainerTable, c: int, k: int)
    requires Tree(cs) && Id(c) && 0 <= k < 3
    ensures ChildQuota(cs, c, k) == QuotaAt(cs, 3 * c + 1 + k)
  {
    ChildSlot(c, k);
    if 3 * c + 1 + k < 64 {
      assert cs[3 * c + 1 + k].used == 1 <==> k < cs[c].nchildren;
    }
  }

  lemma {:induction false} SumQuotaBeyond(cs: ContainerTable, n: nat)
    requires n >= |cs|
    ensures SumQuota(cs, n) == SumQuota(cs, |cs|)
    decreases n
  {
    if n > |cs| {
      SumQuotaBeyond(cs, n - 1);
    }
  }

  // Total usage minus total non-root quota is the number of allocated pages.
  lemma Conservation(s: Pool)
    requires Ledger(s)
    ensures SumUsage(s.cs, |s.cs|) - (SumQuota(s.cs, |s.cs|) - s.cs[0].quota) == |AllocatedPages(s.pmm)|
  {
    hide Tree, Balanced, ChildSum, Owned, Funded, PmmOk, NormalPages;
    SumUsageSplits(s, |s.cs|);
    ChildrenPartition(s.cs, |s.cs|);
    SumQuotaBeyond(s.cs, 3 * |s.cs| + 1);
    SumOwnedCounts(s, |s.cs|);
    assert OwnedBelow(s, |s.cs|) == AllocatedPages(s.pmm);
  }

  // Unspent quota, over all containers, is exactly the number of free pages.
  lemma UnspentIsFree(s: Pool)
    requires Ledger(s)
    ensures SumQuota(s.cs, |s.cs|) - SumUsage(s.cs, |s.cs|) == |FreePages(s.pmm)|
  {
    Conservation(s);
    assert FreePages(s.pmm) == NormalPages(s.pmm) - AllocatedPages(s.pmm)
      && AllocatedPages(s.pmm) <= NormalPages(s.pmm);
  }

  lemma {:induction false} SlackBound(s: Pool, p: int, n: nat)
    requires WithinQuota(s) && n <= |s.cs|
    ensures SumUsage(s.cs, n) <= SumQuota(s.cs, n)
    ensures 0 <= p < n ==> s.cs[p].quota - s.cs[p].usage <= SumQuota(s.cs, n) - SumUsage(s.cs, n)
  {
    if n > 0 {
      SlackBound(s, p, n - 1);
      assert Id(n - 1);
    }
  }

  // Quota is a promise: a container that may consume n pages finds n free pages.
  lemma QuotaIsPromise(s: Pool, p: int, n: u32)
    requires Ledger(s) && WithinQuota(s) && Id(p) && CanConsume(s.cs[p], n)
    ensures n <= |FreePages(s.pmm)|
  {
    hide Ledger, SumQuota, SumUsage;
    GuardMeans(s, p, n);
    UnspentIsFree(s);
    SlackBound(s, p, |s.cs|);
  }

  /* ----- the guards are exact ----- */

  // container_alloc does not ask whether the container is in use: the ledger survives exactly when it is,
  // or when no page was there to hand out.
  lemma AllocKeepsLedgerIff(s: Pool, id: int)
    requires Ledger(s) && Id(id) && UserPage(s.pmm.cursor)
    ensures Ledger(Alloc(s, id).0) <==> s.cs[id].used == 1 || FreePages(s.pmm) == {}
  {
    PallocFirstFit(s.pmm);
    hide Palloc, Balanced, Funded, Tree;
    if s.cs[id].used == 1 {
      AllocLedger(s, id);
    } else if Palloc(s.pmm).1 == 0 {
      CursorLedger(s, 0x4_0000);
      assert FreePages(s.pmm) == {};
    } else {
      var (s', f) := Alloc(s, id);
      assert f in FreePages(s.pmm);
      assert Page(f) && Allocated(s'.pmm, f) && s'.owner[f] == id;
    }
  }

  // container_free does not ask who owns the page: the ledger survives exactly when the caller does, or
  // when the page is not allocated.
  lemma ReleaseKeepsLedgerIff(s: Pool, id: int, page: int)
    requires Ledger(s) && Id(id) && Page(page)
    ensures Ledger(Release(s, id, page)) <==> !Allocated(s.pmm, page) || s.owner[page] == id
  {
    hide Ledger, Release;
    if !Allocated(s.pmm, page) || s.owner[page] == id {
      ReleaseLedger(s, id, page);
    } else {
      StolenPage(s, id, page);
    }
  }

  lemma StolenPage(s: Pool, id: int, page: int)
    requires Ledger(s) && Id(id) && Page(page) && Allocated(s.pmm, page) && s.owner[page] != id
    ensures !Ledger(Release(s, id, page))
  {
    hide Tree, Funded, NormalPages, ChildSum;
    var s', c := Release(s, id, page), s.owner[page];
    assert Id(c) && s'.cs[c] == s.cs[c];
    SameChildSum(s.cs, s'.cs, id, c);
    assert Owned(s', c) == Owned(s, c) - {page} && page in Owned(s, c);
    hide Owned;
  }

  lemma SameChildSum(cs: ContainerTable, cs': ContainerTable, id: int, c: int)
    requires Id(id) && Id(c) && cs' == Charge(cs, id, -1)
    ensures ChildSum(cs', c) == ChildSum(cs, c)
  {
  }

  // container_split tests none of what its callers should. With every account within quota, the accounts
  // survive exactly when the child's id is out of range, or the parent is in use, has a free child slot, and
  // container_can_consume would have said yes; for every parent and every 32-bit request.
  lemma SplitKeepsAccountsIff(s: Pool, id: int, q: u32)
    requires Ledger(s) && WithinQuota(s) && Id(id)
    ensures var s' := s.(cs := Split(s.cs, id, q).0);
      Ledger(s') && WithinQuota(s') <==> 3 * id + 1 + s.cs[id].nchildren >= 64 || SplitGuard(s, id, q)
  {
    LedgerTree(s);
    SplitKeepsTreeIff(s.cs, id, q);
    SplitShape(s.cs, id, q);
    hide Ledger, Split, CanConsume, Tree;
    if s.cs[id].used == 1 && s.cs[id].nchildren < 3 && 3 * id + 1 + s.cs[id].nchildren < 64 {
      if CanConsume(s.cs[id], q) {
        SplitLedger(s, id, q);
      } else {
        GuardMeans(s, id, q);
        OverdrawnSplit(s, id, q);
      }
    } else if 3 * id + 1 + s.cs[id].nchildren < 64 {
      NoLedger(s.(cs := Split(s.cs, id, q).0));
    }
  }

  lemma LedgerTree(s: Pool)
    requires Ledger(s)
    ensures Tree(s.cs)
  {
  }

  lemma NoLedger(s: Pool)
    requires !Tree(s.cs)
    ensures !Ledger(s)
  {
  }

  lemma OverdrawnSplit(s: Pool, id: int, q: u32)
    requires Ledger(s) && Id(id) && s.cs[id].used == 1 && s.cs[id].nchildren < 3 && 3 * id + 1 + s.cs[id].nchildren < 64
    requires 0 <= s.cs[id].usage <= s.cs[id].quota <= 0x10_0000 && q > s.cs[id].quota - s.cs[id].usage
    ensures var s' := s.(cs := Split(s.cs, id, q).0); !(Ledger(s') && WithinQuota(s'))
  {
    assert Tree(s.cs) && Funded(s.cs);
    hide Ledger, Tree, Split, ToI32, Balanced, NormalPages, OwnersInUse, PmmOk;
    SplitShape(s.cs, id, q);
    var s' := s.(cs := Split(s.cs, id, q).0);
    var child := 3 * id + 1 + s.cs[id].nchildren;
    if q >= 0x8000_0000 {
      WrapsNegative(q);
      assert s'.cs[child].quota < 0;
      NegativeQuota(s', child);
    } else if s.cs[id].usage + q < 0x8000_0000 {
      NoWrap(s.cs[id].usage + q);
      assert s'.cs[id].usage > s'.cs[id].quota;
    } else {
      NoWrap(q);
      TooLarge(s, s', id, q);
    }
  }

  lemma WrapsNegative(q: u32)
    requires q >= 0x8000_0000
    ensures ToI32(q) == q - 0x1_0000_0000
  {
  }

  lemma NegativeQuota(s: Pool, c: int)
    requires Id(c) && s.cs[c].quota < 0
    ensures !Ledger(s)
  {
    hide Ledger;
    if Ledger(s) {
      QuotasNat(s);
    }
  }

  lemma TooLarge(s: Pool, s': Pool, id: int, q: int)
    requires Ledger(s) && Id(id) && 0x4000_0000 <= q && s.cs[id].nchildren < 3 && 3 * id + 1 + s.cs[id].nchildren < 64
    requires s'.cs[3 * id + 1 + s.cs[id].nchildren].quota == q && s'.pmm == s.pmm
    ensures !Ledger(s')
  {
    hide Ledger;
    if Ledger(s') {
      TreeChildren(s, id);
      QuotaBound(s', 3 * id + 1 + s.cs[id].nchildren);
    }
  }

  lemma TreeChildren(s: Pool, id: int)
    requires Ledger(s) && Id(id)
    ensures 0 <= s.cs[id].nchildren <= 3
  {
  }

  /* ----- boot ----- */

  function BootContainers(q: int): ContainerTable {
    seq(64, i => if i == 0 then Container(q, 0, 0, 0, 1) else UNUSED)
  }

  // container_init's root quota, the number of free normal pages, opens a balanced ledger.
  lemma BootLedger(s: Pool, rs: seq<Range>)
    requires Initialised(s.pmm, rs) && s.cs == BootContainers(|NormalPages(s.pmm)|)
    ensures Ledger(s) && WithinQuota(s)
    ensures forall c :: Id(c) && c > 0 ==> s.cs[c] == Container(0, 0, 0, 0, 0)
  {
    InitialisedOk(s.pmm, rs);
    forall c | Id(c)
      ensures ChildSum(s.cs, c) == 0 && Owned(s, c) == {}
    {
      assert s.cs[c].nchildren == 0;
      assert forall i :: Page(i) ==> !Allocated(s.pmm, i);
    }
    BootTree(s.cs, |NormalPages(s.pmm)|);
    hide ChildSum, Owned, Tree, PmmOk;
  }

  // The states in which the three operations fail their callers, each a call or two from boot: a split by a
  // container not in use, an allocation by one, and a release of another container's page.
  lemma CarelessCalls(s: Pool, rs: seq<Range>, q: u32)
    requires Initialised(s.pmm, rs) && s.cs == BootContainers(|NormalPages(s.pmm)|)
    ensures UserPage(s.pmm.cursor) && !Tree(Split(s.cs, 5, q).0)
    ensures FreePages(s.pmm) != {} ==> !Ledger(Alloc(s, 5).0)
    ensures FreePages(s.pmm) != {} ==>
      var (s1, f) := Alloc(s, 0); Ledger(s1) && UserPage(f) && !Ledger(Release(s1, 1, f))
  {
    BootLedger(s, rs);
    LedgerTree(s);
    SplitKeepsTreeIff(s.cs, 5, q);
    AllocKeepsLedgerIff(s, 5);
    AllocLedger(s, 0);
    PallocFirstFit(s.pmm);
    hide Ledger, Split, Release, Palloc, Tree, FreePages;
    var (s1, f) := Alloc(s, 0);
    if FreePages(s.pmm) != {} {
      ReleaseKeepsLedgerIff(s1, 1, f);
    }
  }

  // The fourth split of the root, after three that were in order.
  lemma FourthChild(s: Pool, rs: seq<Range>, q: u32)
    requires Initialised(s.pmm, rs) && s.cs == BootContainers(|NormalPages(s.pmm)|)
    ensures var s3 := s.(cs := Split(Split(Split(s.cs, 0, 0).0, 0, 0).0, 0, 0).0);
      Ledger(s3) && WithinQuota(s3) && !Tree(Split(s3.cs, 0, q).0)
  {
    BootLedger(s, rs);
    hide Ledger, Split, Tree, WithinQuota;
    var s1 := FreeSplit(s);
    var s2 := FreeSplit(s1);
    var s3 := FreeSplit(s2);
    LedgerTree(s3);
    SplitKeepsTreeIff(s3.cs, 0, q);
  }

  // Splitting nothing off the root is always in order while it has a free child slot.
  lemma FreeSplit(s: Pool) returns (s': Pool)
    requires Ledger(s) && WithinQuota(s) && s.cs[0].used == 1 && s.cs[0].nchildren < 3
    ensures s' == s.(cs := Split(s.cs, 0, 0).0) && Ledger(s') && WithinQuota(s')
    ensures s'.cs[0].used == 1 && s'.cs[0].nchildren == s.cs[0].nchildren + 1
  {
    s' := s.(cs := Split(s.cs, 0, 0).0);
    LedgerTree(s);
    TreeChildren(s, 0);
    SplitLedger(s, 0, 0);
    SplitShape(s.cs, 0, 0);
    hide Ledger, Split, Tree;
  }

  ghost function NormalBelow(s: Pmm, n: int): set<int> {
    set i | 0 <= i < 0x10_0000 && i < n && Normal(s, i)
  }

  lemma NormalBelowStep(s: Pmm, n: int)
    requires Page(n)
    ensures |NormalBelow(s, n + 1)| == |NormalBelow(s, n)| + if Normal(s, n) then 1 else 0
    ensures |NormalBelow(s, 0)| == 0
  {
    assert NormalBelow(s, n + 1) == NormalBelow(s, n) + (if Normal(s, n) then {n} else {});
    assert NormalBelow(s, 0) == {};
  }

  lemma BootTree(cs: ContainerTable, q: int)
    requires cs == BootContainers(q)
    ensures Tree(cs)
  {
  }

  /* ----- the layer as imperative code ----- */

  class ContainerPool {
    const table: AllocationTable
    const container: array<Container>
    ghost var owner: Owners

    ghost function Repr(): set<object> { {this, container} + table.Repr() }

    ghost predicate Valid()
      reads this, table, table.at, container
    { table.Valid() && container.Length == NUM_CONTAINERS && container !in table.Repr() && this !in table.Repr() }

    ghost function View(): Pool
      requires Valid()
      reads this, table, table.at, container
    { Pool(table.View(), container[..], owner) }

    ghost predicate Zeroed()
      requires Valid()
      reads this, container, table, table.at, table.pmap, table.pmap.slots
    { table.Zeroed() && forall c :: Id(c) ==> container[c] == UNUSED }

    // Zeroed static storage.
    constructor ()
      ensures Valid() && fresh(Repr()) && Zeroed()
    {
      table := new AllocationTable();
      container := new Container[NUM_CONTAINERS](_ => UNUSED);
      owner := seq(AT_SIZE, _ => 0);
    }

    method ContainerInit(es: seq<MmapEntry>)
      requires Valid() && Zeroed() && |Collect(es)| <= 128
      modifies Repr()
      ensures Valid() && Initialised(View().pmm, Rows(es))
      ensures View().cs == BootContainers(|NormalPages(View().pmm)|)
    {
      table.PmemInit(es);
      var quota := CountNormal();
      container[0] := Container(quota, 0, 0, 0, 1);
      assert container[..] == BootContainers(quota);
    }

    // The counting loop of container_init.
    method CountNormal() returns (quota: u32)
      requires Valid() && PmmOk(table.View()) && table.nps < AT_SIZE
      requires forall i :: Page(i) ==> !Allocated(table.View(), i)
      ensures quota == |NormalPages(table.View())|
    {
      ghost var s := table.View();
      var page := 0;
      quota := 0;
      NormalBelowStep(s, 0);
      while page < table.nps
        invariant 0 <= page <= s.nps && Page(page) && quota == |NormalBelow(s, page)| <= page
      {
        var norm := table.AtIsNorm(page);
        var taken := table.AtIsAllocated(page);
        NormalBelowStep(s, page);
        if norm && !taken {
          quota := quota + 1;
        }
        page := page + 1;
      }
      assert NormalBelow(s, s.nps) == NormalPages(s);
    }

    method CanConsumeMore(id: int, n: u32) returns (r: bool)
      requires Valid() && Id(id)
      ensures r == CanConsume(View().cs[id], n)
    {
      var quota: int := ToU32(container[id].quota);
      var usage: int := ToU32(container[id].usage);
      r := ToU32(quota - usage) >= n;
    }

    method ContainerSplit(id: int, quota: u32) returns (child: int)
      requires Valid() && Id(id)
      modifies container
      ensures Valid() && (View().cs, child) == Split(old(View().cs), id, quota)
      ensures View() == old(View()).(cs := View().cs)
    {
      var nc := container[id].nchildren;
      child := ToU32(id * MAX_CHILDREN + 1 + nc);
      if NUM_CONTAINERS <= child {
        return NUM_CONTAINERS;
      }
      container[id] := container[id].(usage := ToI32(container[id].usage + quota));
      container[id] := container[id].(nchildren := ToI32(container[id].nchildren + 1));
      container[child] := Container(ToI32(quota), 0, id, 0, 1);
      assert container[..] == Split(old(container[..]), id, quota).0;
    }

    method ContainerAlloc(id: int) returns (page: int)
      requires Valid() && Id(id) && PmmOk(View().pmm)
      modifies Repr()
      ensures Valid() && (View(), page) == Alloc(old(View()), id)
    {
      page := table.DoPalloc();
      if page == 0 {
        return 0;
      }
      container[id] := container[id].(usage := ToI32(container[id].usage + 1));
      owner := owner[page := id];
      assert container[..] == Charge(old(container[..]), id, 1);
    }

    method ContainerFree(id: int, page: int)
      requires Valid() && Id(id) && Page(page)
      modifies container, table.at
      ensures Valid() && View() == Release(old(View()), id, page)
    {
      var taken := table.AtIsAllocated(page);
      if taken {
        table.Pfree(page);
        container[id] := container[id].(usage := ToI32(container[id].usage - 1));
        assert container[..] == Charge(old(container[..]), id, -1);
      }
    }
  }
}
