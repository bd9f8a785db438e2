// elf_load when memory runs out: what it keeps whatever happens, and exactly when the image gets its pages.
module LoadFailure {
  import opened Words
  import opened PageAllocator
  import opened Containers
  import opened PageTables
  import opened PageMaps
  import opened Quota
  import opened Budget
  import opened UserCopy
  import opened CopyFailure
  import opened Views
  import opened Loader

  // The invariant and the accounts are kept, no other process sees a change, and of the kernel's own
  // memory at most page 0 is overwritten.
  ghost predicate Contained(s: Machine, s': Machine, p: int)
    requires Pid(p)
  {
    && Inv(s') && KeepsAccounts(s.pool, s'.pool, p) && Scarce(s, s', p) && KeepsKernelBut(s, s', 0, 4096)
    && forall q :: UserPid(q) && q != p ==> SameView(s.mem, s'.mem, q)
  }

  lemma ContainedRefl(s: Machine, p: int)
    requires Inv(s) && Pid(p)
    ensures Contained(s, s, p)
  {
    hide Inv, Ledger, FreePages, Pde, Lookup, UserByte, KernelByte;
  }

  lemma ContainedTrans(s: Machine, s1: Machine, s2: Machine, p: int)
    requires Pid(p) && Contained(s, s1, p) && Contained(s1, s2, p)
    ensures Contained(s, s2, p)
  {
    hide Inv, Ledger, Scarce, SameView, StaticByte;
    ScarceTrans(s, s1, s2, p);
    forall q | UserPid(q) && q != p
      ensures SameView(s.mem, s2.mem, q)
    {
      SameViewTrans(s.mem, s1.mem, s2.mem, q);
    }
  }

  lemma ContainedInv(s: Machine, s': Machine, p: int)
    requires Pid(p) && Contained(s, s', p)
    ensures Inv(s') && PmmOk(s'.pool.pmm) && Scarce(s, s', p)
  {
  }

  lemma HarmlessContained(s: Machine, s': Machine, p: int, lo: int, hi: int)
    requires Pid(p) && Harmless(s, s', p, lo, hi)
    ensures Contained(s, s', p)
  {
    hide Inv, KeepsAccounts, Scarce, KeepsKernelBut, SameView;
    forall q | UserPid(q) && q != p
      ensures SameView(s.mem, s'.mem, q)
    {
      HarmlessView(s, s', p, lo, hi, q);
    }
  }

  lemma HarmlessView(s: Machine, s': Machine, p: int, lo: int, hi: int, q: int)
    requires Pid(p) && Harmless(s, s', p, lo, hi) && UserPid(q) && q != p
    ensures SameView(s.mem, s'.mem, q)
  {
    hide Inv, KeepsAccounts, Scarce, KeepsKernelBut, Lookup, Phys;
  }

  // alloc_page, successful or not.
  lemma AllocContained(s: Machine, p: int, va: u32, perm: int)
    requires Inv(s) && UserPid(p) && UserVa(va) && 0 <= perm < 4096 && perm % 2 == 1 && PmmOk(s.pool.pmm)
    ensures Contained(s, AllocPage(s, p, va, perm).0, p)
  {
    hide Inv, PmmOk, AllocPage, Cost, FreePages, OnePage, PageNeeds, KeepsAccounts, Scarce, KeepsKernel;
    hide KeepsKernelBut, SameView, Ledger, SamePerms, EntryOf;
    var s1 := AllocPage(s, p, va, perm).0;
    AllocPageInv(s, p, va, perm);
    if AllocPage(s, p, va, perm).1 != MAGIC_NUMBER {
      AllocPageIff(s, p, va, perm);
      TookAccounts(s.pool, s1.pool, p, Cost(s, p, va));
      AllocOnePage(s, p, va, perm);
      CostCovers(s, p, va);
      NotEmptied(s, p, va);
      TookScarce(s, s1, p, va);
      AllocKeepsKernel(s, p, va, perm);
      KernelBut(s, s1);
    } else {
      AllocPageFails(s, p, va, perm);
      FailedAccounts(s, p, va, perm);
      SameFree(s.pool.pmm, s1.pool.pmm);
      SameScarce(s, s1, p);
      AllocPagePerms(s, p, va, perm);
      SameMemory(s, s1);
    }
    forall q | UserPid(q) && q != p
      ensures SameView(s.mem, s1.mem, q)
    {
      MapNewView(s, p, va, perm, q);
    }
  }

  lemma NotEmptied(s: Machine, p: int, va: u32)
    requires Pid(p) && Cost(s, p, va) <= |FreePages(s.pool.pmm)|
    ensures FreePages(s.pool.pmm) != {}
  {
    hide Pde, FreePages;
  }

  lemma CostCovers(s: Machine, p: int, va: u32)
    requires Pid(p)
    ensures PageNeeds(s.mem, p, va) <= Cost(s, p, va)
    ensures !Mapped(s.mem, p, va) ==> PageNeeds(s.mem, p, va) == Cost(s, p, va)
  {
    hide Pde, Lookup;
  }

  lemma KernelBut(s: Machine, s1: Machine)
    requires KeepsKernel(s, s1)
    ensures KeepsKernelBut(s, s1, 0, 4096)
  {
    hide KernelByte;
  }

  lemma SameMemory(s: Machine, s1: Machine)
    requires SamePerms(s, s1) && s1.mem == s.mem
    ensures KeepsKernelBut(s, s1, 0, 4096)
  {
    hide KernelByte;
  }

  predicate PageToLoad(p: int, fa: u32, va: u32) {
    UserPid(p) && fa + 4096 <= MEM_SIZE && UserRange(va, 4096) && va % 4096 == 0
  }

  lemma CopyContained(s: Machine, p: int, fa: u32, va: u32, n: u32)
    requires Inv(s) && UserPid(p) && UserRange(va, n) && fa + n <= MEM_SIZE && PmmOk(s.pool.pmm)
    ensures Contained(s, PtCopyout(s, fa, p, va, n).0, p)
  {
    hide Inv, PmmOk, WriteUser, Harmless, Contained, Accepted;
    if Accepted(va, fa, n) {
      WriteUserHarmless(s, p, va, n, Kernel(fa));
      HarmlessContained(s, PtCopyout(s, fa, p, va, n).0, p, va, va + n);
    } else {
      ContainedRefl(s, p);
    }
  }

  lemma FillContained(s: Machine, p: int, fa: u32, va: u32, zva: u32, filesz: u32)
    requires Inv(s) && PageToLoad(p, fa, va) && PmmOk(s.pool.pmm)
    ensures Contained(s, FillPage(s, p, fa, va, zva, filesz), p)
  {
    hide Inv, PmmOk, PtCopyout, PtMemset, Contained, RoundDown;
    if va < RoundDown(zva) {
      CopyContained(s, p, fa, va, 4096);
    } else {
      Leftover(va, zva);
      var s1 := PtMemset(s, p, va, 0, 4096).0;
      ZeroContained(s, p, va);
      if va < zva && filesz != 0 {
        ContainedInv(s, s1, p);
        CopyContained(s1, p, fa, va, zva - va);
        ContainedTrans(s, s1, PtCopyout(s1, fa, p, va, zva - va).0, p);
      }
    }
  }

  lemma ZeroContained(s: Machine, p: int, va: u32)
    requires Inv(s) && UserPid(p) && UserRange(va, 4096) && PmmOk(s.pool.pmm)
    ensures Contained(s, PtMemset(s, p, va, 0, 4096).0, p)
  {
    hide Inv, PmmOk, WriteUser, Harmless, Contained;
    WriteUserHarmless(s, p, va, 4096, Constant(0));
    HarmlessContained(s, PtMemset(s, p, va, 0, 4096).0, p, va, va + 4096);
  }

  lemma LoadPageContained(s: Machine, p: int, fa: u32, va: u32, zva: u32, filesz: u32, perm: int)
    requires Inv(s) && PageToLoad(p, fa, va) && 0 <= perm < 4096 && perm % 2 == 1 && PmmOk(s.pool.pmm)
    ensures Contained(s, LoadPage(s, p, fa, va, zva, filesz, perm), p)
  {
    hide Inv, PmmOk, AllocPage, FillPage, Contained;
    var s1 := AllocPage(s, p, va, perm).0;
    AllocContained(s, p, va, perm);
    ContainedInv(s, s1, p);
    FillContained(s1, p, fa, va, zva, filesz);
    ContainedTrans(s, s1, FillPage(s1, p, fa, va, zva, filesz), p);
  }

  predicate PagesToLoad(p: int, fa: int, va: int, eva: int, perm: int) {
    && UserPid(p) && 0 <= va && eva < MEM_SIZE && va % 4096 == 0 == eva % 4096 && 0 <= fa
    && (va < eva ==> VM_USERLO <= va && eva <= VM_USERHI && fa + (eva - va) <= MEM_SIZE)
    && 0 <= perm < 4096 && perm % 2 == 1
  }

  lemma {:induction false} LoadPagesContained(s: Machine, p: int, fa: int, va: int, eva: int, zva: u32,
      filesz: u32, perm: int)
    requires Inv(s) && PagesToLoad(p, fa, va, eva, perm) && PmmOk(s.pool.pmm)
    ensures Contained(s, LoadPages(s, p, fa, va, eva, zva, filesz, perm), p)
    decreases eva - va
  {
    hide Inv, PmmOk, LoadPage, Contained;
    NextPage(va, eva);
    if va >= eva {
      ContainedRefl(s, p);
    } else {
      var s1 := LoadPage(s, p, fa, va, zva, filesz, perm);
      LoadPageContained(s, p, fa, va, zva, filesz, perm);
      ContainedInv(s, s1, p);
      LoadPagesContained(s1, p, fa + 4096, va + 4096, eva, zva, filesz, perm);
      ContainedTrans(s, s1, LoadPages(s1, p, fa + 4096, va + 4096, eva, zva, filesz, perm), p);
    }
  }

  lemma LoadSegmentContained(s: Machine, p: int, exe: int, ph: Phdr)
    requires Inv(s) && UserPid(p) && (ph.Load() ==> Placed(ph, exe)) && PmmOk(s.pool.pmm)
    ensures Contained(s, LoadSegment(s, p, exe, ph), p)
  {
    hide Inv, PmmOk, LoadPages, Contained, RoundDown, RoundUp;
    if ph.Load() {
      PageBounds(ph);
      LoadPagesContained(s, p, exe + RoundDown(ph.offset), ph.Start(), End(ph), ph.Zva(), ph.filesz, ph.Perm());
    } else {
      ContainedRefl(s, p);
    }
  }

  lemma {:induction false} LoadSegmentsContained(s: Machine, p: int, exe: int, phs: seq<Phdr>)
    requires Inv(s) && UserPid(p) && AllPlaced(phs, exe) && PmmOk(s.pool.pmm)
    ensures Contained(s, LoadSegments(s, p, exe, phs), p)
    decreases |phs|
  {
    hide Inv, PmmOk, LoadSegment, Contained, Placed, InMemory;
    if phs == [] {
      ContainedRefl(s, p);
    } else {
      var s1 := LoadSegment(s, p, exe, phs[0]);
      LoadSegmentContained(s, p, exe, phs[0]);
      ContainedInv(s, s1, p);
      LoadSegmentsContained(s1, p, exe, phs[1..]);
      ContainedTrans(s, s1, LoadSegments(s1, p, exe, phs[1..]), p);
    }
  }

  // Whatever an image whose pages are user pages asks for, and however little memory there is, elf_load stays
  // within its process. It tests none of this; Strays says what a page outside the user range does.
  lemma {:induction false} ElfLoadContained(s: Machine, p: int, exe: int, phs: seq<Phdr>, dll: u32)
    requires Inv(s) && UserPid(p) && AllPlaced(phs, exe) && dll + DLL_SIZE <= MEM_SIZE && PmmOk(s.pool.pmm)
    ensures Contained(s, ElfLoad(s, p, exe, phs, dll), p)
  {
    hide Inv, PmmOk, LoadSegments, PtCopyout, Contained, Placed, InMemory;
    var s1 := LoadSegments(s, p, exe, phs);
    LoadSegmentsContained(s, p, exe, phs);
    ContainedInv(s, s1, p);
    CopyContained(s1, p, dll, VM_DYNLINK, DLL_SIZE);
    ContainedTrans(s, s1, ElfLoad(s, p, exe, phs, dll), p);
  }

  /* ----- exactly when an image is loaded ----- */

  // What alloc_page needs for page v is more than what is free: its entry will stay as it is.
  ghost predicate Short(s: Machine, p: int, v: int)
    requires Pid(p)
  { UserPage(v) && Cost(s, p, 4096 * v) > |FreePages(s.pool.pmm)| }

  lemma StaysShort(s: Machine, s1: Machine, p: int, v: int)
    requires UserPid(p) && Short(s, p, v) && Scarce(s, s1, p)
    ensures Short(s1, p, v) && Lookup(s1.mem, p, 4096 * v) == Lookup(s.mem, p, 4096 * v)
  {
    hide Pde, FreePages, PdeIdx, Present;
    AddressParts(4096 * v);
    NoTableNoEntry(s.mem, p, 4096 * v);
    NoTableNoEntry(s1.mem, p, 4096 * v);
    hide Lookup;
  }

  lemma NoTableNoEntry(m: Mem, p: int, va: u32)
    requires Pid(p)
    ensures !Present(Pde(m, p, PdeIdx(va))) ==> Lookup(m, p, va) == 0
  {
    hide Word, PdeIdx, PteIdx;
  }

  lemma ContainedShort(s: Machine, s1: Machine, p: int, v: int)
    requires UserPid(p) && Short(s, p, v) && Contained(s, s1, p)
    ensures Short(s1, p, v) && Lookup(s1.mem, p, 4096 * v) == Lookup(s.mem, p, 4096 * v)
  {
    hide Short, Scarce, Inv, KeepsAccounts, KeepsKernelBut, SameView, Lookup;
    StaysShort(s, s1, p, v);
  }

  // Outside whole pages [lo, hi) every entry of p is as it was.
  lemma EntryOutside(s: Machine, s1: Machine, p: int, lo: int, hi: int, w: u32)
    requires UserPid(p) && Outside(s, s1, p, lo, hi) && lo % 4096 == 0 == hi % 4096 && UserVa(w) && !(lo <= w < hi)
    ensures Lookup(s1.mem, p, w) == Lookup(s.mem, p, w)
  {
    hide Lookup, UserByte, KeepsKernel;
    WholePages(lo, hi, w);
  }

  lemma {:induction false} LoadPagesShort(s: Machine, p: int, fa: int, va: int, eva: int, zva: u32,
      filesz: u32, perm: int) returns (v: int)
    requires Inv(s) && PagesArgs(p, fa, va, eva, zva, filesz) && KernelBuffer(s, fa, FileLen(va, zva, filesz))
    requires PmmOk(s.pool.pmm) && 0 <= perm < 4096 && perm % 2 == 1
    requires RangeNeeds(s.mem, p, va, eva) > |FreePages(s.pool.pmm)|
    ensures va <= 4096 * v < eva && Short(LoadPages(s, p, fa, va, eva, zva, filesz, perm), p, v)
    ensures Lookup(LoadPages(s, p, fa, va, eva, zva, filesz, perm).mem, p, 4096 * v) == Lookup(s.mem, p, 4096 * v)
    decreases eva - va
  {
    hide Inv, PmmOk, LoadPage, Contained, PageLoaded, KernelBuffer, FileLen, RangeNeeds, FreePages, Cost, Short, Lookup;
    if va >= eva {
      NothingNeeded(s.mem, p, va, eva);
      assert false;
    }
    PageCountStep(va, eva);
    if Cost(s, p, va) > |FreePages(s.pool.pmm)| {
      FirstShort(s, p, va);
      v := va / 4096;
      LoadPagesContained(s, p, fa, va, eva, zva, filesz, perm);
      ContainedShort(s, LoadPages(s, p, fa, va, eva, zva, filesz, perm), p, v);
    } else {
      var s1 := LoadPage(s, p, fa, va, zva, filesz, perm);
      PageDoneRest(s, p, fa, va, eva, zva, filesz, perm);
      v := LoadPagesShort(s1, p, fa + 4096, va + 4096, eva, zva, filesz, perm);
      EntryOutside(s, s1, p, va, va + 4096, 4096 * v);
    }
  }

  lemma FirstShort(s: Machine, p: int, va: u32)
    requires UserPid(p) && UserVa(va) && va % 4096 == 0 && Cost(s, p, va) > |FreePages(s.pool.pmm)|
    ensures Short(s, p, va / 4096) && 4096 * (va / 4096) == va
  {
    hide Cost, FreePages;
  }

  lemma NothingNeeded(m: Mem, p: int, va: int, eva: int)
    requires Pid(p) && eva == va
    ensures RangeNeeds(m, p, va, eva) == 0
  {
    hide Pde;
    EmptySlots(va);
    assert Absent(m, p, {}) == {};
  }

  // After a page that could be had, the rest is as short of pages as the whole was.
  lemma PageDoneRest(s: Machine, p: int, fa: int, va: int, eva: int, zva: u32, filesz: u32, perm: int)
    requires Inv(s) && PagesArgs(p, fa, va, eva, zva, filesz) && KernelBuffer(s, fa, FileLen(va, zva, filesz))
    requires PmmOk(s.pool.pmm) && 0 <= perm < 4096 && perm % 2 == 1 && va + 4096 <= eva && (va + 4096) % 4096 == 0
    requires Cost(s, p, va) <= |FreePages(s.pool.pmm)|
    ensures var s1 := LoadPage(s, p, fa, va, zva, filesz, perm);
      && Inv(s1) && PmmOk(s1.pool.pmm) && PagesArgs(p, fa + 4096, va + 4096, eva, zva, filesz)
      && KernelBuffer(s1, fa + 4096, FileLen(va + 4096, zva, filesz)) && Outside(s, s1, p, va, va + 4096)
      && |FreePages(s1.pool.pmm)| - RangeNeeds(s1.mem, p, va + 4096, eva)
         == |FreePages(s.pool.pmm)| - RangeNeeds(s.mem, p, va, eva)
  {
    hide Inv, PmmOk, LoadPage, KernelBuffer, RangeNeeds, FreePages, Cost, Opened, Shows, FileLen, SameBytes;
    hide Ledger, Outside;
    PrefixBuffer(s, fa, FileLen(va, zva, filesz));
    LoadPageCorrect(s, p, fa, va, zva, filesz, perm);
    var s1 := LoadPage(s, p, fa, va, zva, filesz, perm);
    InvPmm(s1);
    RangeNeedsStep(s, s1.mem, p, va, eva);
    SourceKept(s, s1, p, va, fa, FileLen(va, zva, filesz));
    NextBuffer(s1, fa, va, zva, filesz);
  }

  lemma LoadSegmentShort(s: Machine, p: int, exe: int, ph: Phdr) returns (v: int)
    requires Inv(s) && UserPid(p) && ph.Load() && SegmentOk(ph, exe) && FileSafe(s, exe, ph) && PmmOk(s.pool.pmm)
    requires RangeNeeds(s.mem, p, ph.Start(), End(ph)) > |FreePages(s.pool.pmm)|
    ensures Covers(ph, 4096 * v) && UserPage(v) && Short(LoadSegment(s, p, exe, ph), p, v)
    ensures Lookup(LoadSegment(s, p, exe, ph).mem, p, 4096 * v) == Lookup(s.mem, p, 4096 * v)
  {
    hide Inv, PmmOk, RoundDown, RoundUp, RangeNeeds, LoadPages, KernelBuffer, FileLen, FreePages, Short;
    hide Lookup, Placed, InMemory;
    SegmentBounds(ph, exe);
    v := LoadPagesShort(s, p, exe + RoundDown(ph.offset), ph.Start(), End(ph), ph.Zva(), ph.filesz, ph.Perm());
  }

  // A well-formed image in kernel memory proper, the linkage table aside.
  ghost predicate Sound(s: Machine, p: int, exe: int, phs: seq<Phdr>) {
    Inv(s) && UserPid(p) && SegmentsOk(phs, exe) && PageDisjoint(phs) && FilesSafe(s, exe, phs)
  }

  lemma {:induction false} LoadSegmentsShort(s: Machine, p: int, exe: int, phs: seq<Phdr>) returns (v: int)
    requires Sound(s, p, exe, phs) && SegmentsNeed(s.mem, p, phs) > |FreePages(s.pool.pmm)| && PmmOk(s.pool.pmm)
    ensures InSegments(phs, 4096 * v) && UserPage(v) && Short(LoadSegments(s, p, exe, phs), p, v)
    ensures Lookup(LoadSegments(s, p, exe, phs).mem, p, 4096 * v) == Lookup(s.mem, p, 4096 * v)
    decreases |phs|
  {
    hide PmmOk, LoadSegment, Sound, SegmentsNeed, FreePages, Short, Contained, OneNeeds, Covers, Lookup, InMemory;
    SoundFacts(s, p, exe, phs);
    if phs == [] {
      NoSegmentNeeds(s.mem, p);
      assert false;
    }
    var s1 := LoadSegment(s, p, exe, phs[0]);
    var s2 := LoadSegments(s1, p, exe, phs[1..]);
    if OneNeeds(s.mem, p, phs[0]) > |FreePages(s.pool.pmm)| {
      v := FirstSegmentShort(s, p, exe, phs);
      LoadSegmentContained(s, p, exe, phs[0]);
      ContainedInv(s, s1, p);
      LoadSegmentsContained(s1, p, exe, phs[1..]);
      ContainedShort(s1, s2, p, v);
    } else {
      SegmentDoneRest(s, p, exe, phs);
      v := LoadSegmentsShort(s1, p, exe, phs[1..]);
      EntryInTail(s, p, exe, phs, 4096 * v);
    }
  }

  lemma SoundFacts(s: Machine, p: int, exe: int, phs: seq<Phdr>)
    requires Sound(s, p, exe, phs)
    ensures Inv(s) && UserPid(p) && SegmentsOk(phs, exe)
    ensures phs != [] ==> SegmentsOk(phs[1..], exe) && (phs[0].Load() ==> SegmentOk(phs[0], exe))
  {
    hide Inv, SegmentOk, PageDisjoint, FilesSafe;
  }

  lemma NoSegmentNeeds(m: Mem, p: int)
    requires Pid(p)
    ensures SegmentsNeed(m, p, []) == 0
  {
    hide Pde;
    assert Absent(m, p, {}) == {};
  }

  lemma FirstSegmentShort(s: Machine, p: int, exe: int, phs: seq<Phdr>) returns (v: int)
    requires Sound(s, p, exe, phs) && phs != [] && PmmOk(s.pool.pmm) && Pid(p)
    requires (phs[0].Load() ==> SegmentOk(phs[0], exe))
    requires OneNeeds(s.mem, p, phs[0]) > |FreePages(s.pool.pmm)|
    ensures Covers(phs[0], 4096 * v) && UserPage(v) && Short(LoadSegment(s, p, exe, phs[0]), p, v)
    ensures Lookup(LoadSegment(s, p, exe, phs[0]).mem, p, 4096 * v) == Lookup(s.mem, p, 4096 * v)
  {
    hide Inv, PmmOk, LoadSegment, RangeNeeds, FreePages, Short, Covers, SegmentOk, KernelBuffer, PageDisjoint;
    hide RoundDown, RoundUp, Lookup;
    v := LoadSegmentShort(s, p, exe, phs[0]);
  }

  // After a segment that could be had, the rest is as short of pages as the whole was.
  lemma SegmentDoneRest(s: Machine, p: int, exe: int, phs: seq<Phdr>)
    requires Sound(s, p, exe, phs) && phs != [] && PmmOk(s.pool.pmm) && Pid(p)
    requires (phs[0].Load() ==> SegmentOk(phs[0], exe))
    requires OneNeeds(s.mem, p, phs[0]) <= |FreePages(s.pool.pmm)|
    ensures var s1 := LoadSegment(s, p, exe, phs[0]);
      && PmmOk(s1.pool.pmm) && Sound(s1, p, exe, phs[1..])
      && |FreePages(s1.pool.pmm)| - SegmentsNeed(s1.mem, p, phs[1..])
         == |FreePages(s.pool.pmm)| - SegmentsNeed(s.mem, p, phs)
  {
    hide Inv, PmmOk, LoadSegment, RangeNeeds, SegmentsNeed, FilesSafe, SegmentOk, SegmentDone, FreePages;
    hide Opened, Ledger;
    hide KeepsKernel, OneSlots, PageDisjoint, RoundDown, RoundUp;
    var s1 := LoadSegment(s, p, exe, phs[0]);
    OneSegment(s, p, exe, phs);
    OneFacts(s, s1, p, exe, phs[0]);
    InvPmm(s1);
    SegmentsNeedStep(s.mem, s1.mem, p, phs);
    FilesStay(s, s1, exe, phs);
    TailDisjoint(phs);
  }

  lemma OneSegment(s: Machine, p: int, exe: int, phs: seq<Phdr>)
    requires Sound(s, p, exe, phs) && phs != [] && PmmOk(s.pool.pmm) && Pid(p)
    requires (phs[0].Load() ==> SegmentOk(phs[0], exe))
    requires OneNeeds(s.mem, p, phs[0]) <= |FreePages(s.pool.pmm)|
    ensures OneDone(s, LoadSegment(s, p, exe, phs[0]), p, exe, phs[0])
  {
    hide Inv, PmmOk, LoadPages, RangeNeeds, FilesSafe, SegmentOk, SegmentDone, FreePages, PageDisjoint;
    hide RoundDown, RoundUp, InMemory, Placed;
    if phs[0].Load() {
      FirstFile(s, exe, phs);
      LoadSegmentCorrect(s, p, exe, phs[0]);
    }
  }

  // Loading the first segment leaves the entries of the others alone.
  lemma {:induction false} EntryInTail(s: Machine, p: int, exe: int, phs: seq<Phdr>, w: u32)
    requires Sound(s, p, exe, phs) && phs != [] && PmmOk(s.pool.pmm) && Pid(p)
    requires (phs[0].Load() ==> SegmentOk(phs[0], exe))
    requires OneNeeds(s.mem, p, phs[0]) <= |FreePages(s.pool.pmm)| && InSegments(phs[1..], w) && UserVa(w)
    ensures Lookup(LoadSegment(s, p, exe, phs[0]).mem, p, w) == Lookup(s.mem, p, w)
  {
    hide Inv, PmmOk, LoadSegment, RangeNeeds, FilesSafe, SegmentOk, FreePages, PageDisjoint, Lookup, Outside;
    hide SegmentShown;
    hide RoundDown, RoundUp, Took, Opened, InSegments;
    OneSegment(s, p, exe, phs);
    if phs[0].Load() {
      SegmentBounds(phs[0], exe);
      if Covers(phs[0], w) {
        NotCovered(phs, w);
        assert false;
      }
      EntryOutside(s, LoadSegment(s, p, exe, phs[0]), p, phs[0].Start(), End(phs[0]), w);
    }
  }

  /* the other direction: every page that was had is a new one */

  // The address is mapped by an entry it did not have before.
  ghost predicate Renewed(m: Mem, m': Mem, p: int, w: u32)
    requires Pid(p)
  { Mapped(m', p, w) && Lookup(m', p, w) != Lookup(m, p, w) }

  lemma AllocRenews(s: Machine, p: int, va: u32, perm: int)
    requires Inv(s) && UserPid(p) && UserVa(va) && 0 <= perm < 4096 && perm % 2 == 1 && PmmOk(s.pool.pmm)
    requires AllocPage(s, p, va, perm).1 != MAGIC_NUMBER
    ensures Renewed(s.mem, AllocPage(s, p, va, perm).0.mem, p, va)
  {
    AllocPageMaps(s, p, va, perm);
    AllocNewPage(s, p, va, perm);
    var f := Alloc(s.pool, p).1;
    EntryParts(f, perm);
    hide Inv, PmmOk, AllocPage, Lookup, Entry, Alloc;
    if Mapped(s.mem, p, va) {
      MappedFrame(s, p, va);
      assert Lookup(s.mem, p, va) / 4096 != f;
    }
  }

  lemma LoadPageRenews(s: Machine, p: int, fa: u32, va: u32, zva: u32, filesz: u32, perm: int, w: u32)
    requires Inv(s) && PageArgs(p, fa, va, zva, filesz) && Cost(s, p, va) <= |FreePages(s.pool.pmm)|
    requires PmmOk(s.pool.pmm) && 0 <= perm < 4096 && perm % 2 == 1 && va <= w < va + 4096
    requires KernelBuffer(s, fa, Min(FileLen(va, zva, filesz), 4096))
    ensures Renewed(s.mem, LoadPage(s, p, fa, va, zva, filesz, perm).mem, p, w)
  {
    hide Inv, AllocPage, FillPage, Outside, Mapped, Lookup, KernelBuffer, PmmOk, Took, Opened, FileLen, SameBytes, Cost;
    hide FreePages, KeepsBytes, MapsOnly, KeepsKernel, UserByte, PageByte;
    var s1 := AllocPage(s, p, va, perm).0;
    AllocPageCursor(s, p, va, perm);
    LoadAlloc(s, p, va, perm);
    AllocPageIff(s, p, va, perm);
    AllocRenews(s, p, va, perm);
    SourceKept(s, s1, p, va, fa, Min(FileLen(va, zva, filesz), 4096));
    FillPageCorrect(s1, p, fa, va, zva, filesz);
    InPageIff(va, w);
    SamePageLookup(s.mem, p, va, w);
    SamePageLookup(s1.mem, p, va, w);
    SameMapped(s1.mem, p, va, w);
  }

  lemma SameMapped(m: Mem, p: int, va: u32, w: u32)
    requires Pid(p)
    ensures Lookup(m, p, va) == Lookup(m, p, w) ==> (Mapped(m, p, va) <==> Mapped(m, p, w))
  {
    hide Lookup;
  }

  lemma {:induction false} LoadPagesRenew(s: Machine, p: int, fa: int, va: int, eva: int, zva: u32,
      filesz: u32, perm: int, w: u32)
    requires CanLoad(s, p, fa, va, eva, zva, filesz) && 0 <= perm < 4096 && perm % 2 == 1 && PmmOk(s.pool.pmm)
    requires va <= w < eva
    ensures Renewed(s.mem, LoadPages(s, p, fa, va, eva, zva, filesz, perm).mem, p, w)
    decreases eva - va
  {
    hide Inv, PmmOk, LoadPage, PageLoaded, KernelBuffer, FileLen, RangeNeeds, FreePages, Cost, Outside, Lookup, Mapped;
    PageCountStep(va, eva);
    FirstRangeNeed(s, p, va, eva);
    var s1 := LoadPage(s, p, fa, va, zva, filesz, perm);
    PageDoneRest(s, p, fa, va, eva, zva, filesz, perm);
    if w < va + 4096 {
      PrefixBuffer(s, fa, FileLen(va, zva, filesz));
      LoadPageRenews(s, p, fa, va, zva, filesz, perm, w);
      LoadPagesCorrect(s1, p, fa + 4096, va + 4096, eva, zva, filesz, perm);
      var s2 := LoadPages(s1, p, fa + 4096, va + 4096, eva, zva, filesz, perm);
      RangeOutside(s1, s2, p, fa + 4096, va + 4096, eva, zva, filesz, perm);
      EntryOutside(s1, s2, p, va + 4096, eva, w);
      SameEntryMapped(s1.mem, s2.mem, p, w);
    } else {
      LoadPagesRenew(s1, p, fa + 4096, va + 4096, eva, zva, filesz, perm, w);
      EntryOutside(s, s1, p, va, va + 4096, w);
    }
  }

  lemma SameEntryMapped(m: Mem, m': Mem, p: int, w: u32)
    requires Pid(p) && Lookup(m', p, w) == Lookup(m, p, w)
    ensures Mapped(m', p, w) <==> Mapped(m, p, w)
  {
    hide Lookup;
  }

  lemma RangeOutside(s: Machine, s': Machine, p: int, fa: int, va: int, eva: int, zva: u32, filesz: u32, perm: int)
    requires Pid(p) && 0 <= fa && fa + (eva - va) <= VM_USERHI && RangeLoaded(s, s', p, fa, va, eva, zva, filesz, perm)
    ensures Outside(s, s', p, va, eva)
  {
    hide Inv, Took, Opened, Outside, Shows;
  }

  lemma LoadSegmentRenews(s: Machine, p: int, exe: int, ph: Phdr, w: u32)
    requires Inv(s) && UserPid(p) && SegmentOk(ph, exe) && FileSafe(s, exe, ph) && Covers(ph, w)
    requires RangeNeeds(s.mem, p, ph.Start(), End(ph)) <= |FreePages(s.pool.pmm)| && PmmOk(s.pool.pmm)
    ensures Renewed(s.mem, LoadSegment(s, p, exe, ph).mem, p, w)
  {
    hide Inv, PmmOk, RoundDown, RoundUp, RangeNeeds, LoadPages, KernelBuffer, FileLen, FreePages, Lookup;
    hide Placed, InMemory;
    SegmentBounds(ph, exe);
    LoadPagesRenew(s, p, exe + RoundDown(ph.offset), ph.Start(), End(ph), ph.Zva(), ph.filesz, ph.Perm(), w);
  }

  lemma {:induction false} LoadSegmentsRenew(s: Machine, p: int, exe: int, phs: seq<Phdr>, w: u32)
    requires Sound(s, p, exe, phs) && SegmentsNeed(s.mem, p, phs) <= |FreePages(s.pool.pmm)| && PmmOk(s.pool.pmm)
    requires InSegments(phs, w) && UserVa(w)
    ensures Renewed(s.mem, LoadSegments(s, p, exe, phs).mem, p, w)
    decreases |phs|
  {
    hide PmmOk, LoadSegment, Sound, SegmentsNeed, FreePages, OneNeeds, Covers, Lookup, InMemory, Mapped;
    SoundFacts(s, p, exe, phs);
    FirstSegmentNeed(s.mem, p, exe, phs);
    var s1 := LoadSegment(s, p, exe, phs[0]);
    SegmentDoneRest(s, p, exe, phs);
    if InSegments(phs[1..], w) {
      LoadSegmentsRenew(s1, p, exe, phs[1..], w);
      EntryInTail(s, p, exe, phs, w);
    } else {
      FirstRenews(s, p, exe, phs, w);
      EntryElsewhere(s1, p, exe, phs[1..], w);
      SameEntryMapped(s1.mem, LoadSegments(s1, p, exe, phs[1..]).mem, p, w);
    }
  }

  lemma FirstRenews(s: Machine, p: int, exe: int, phs: seq<Phdr>, w: u32)
    requires Sound(s, p, exe, phs) && phs != [] && PmmOk(s.pool.pmm) && Pid(p) && Covers(phs[0], w)
    requires (phs[0].Load() ==> SegmentOk(phs[0], exe))
    requires OneNeeds(s.mem, p, phs[0]) <= |FreePages(s.pool.pmm)|
    ensures Renewed(s.mem, LoadSegment(s, p, exe, phs[0]).mem, p, w)
  {
    hide Inv, PmmOk, LoadSegment, RangeNeeds, FilesSafe, SegmentOk, FreePages, PageDisjoint, Renewed;
    hide RoundDown, RoundUp;
    FirstFile(s, exe, phs);
    LoadSegmentRenews(s, p, exe, phs[0], w);
  }

  lemma {:induction false} EntryElsewhere(s: Machine, p: int, exe: int, phs: seq<Phdr>, w: u32)
    requires Sound(s, p, exe, phs) && SegmentsNeed(s.mem, p, phs) <= |FreePages(s.pool.pmm)| && PmmOk(s.pool.pmm)
    requires UserPid(p) && SegmentsOk(phs, exe) && !InSegments(phs, w) && UserVa(w)
    ensures Lookup(LoadSegments(s, p, exe, phs).mem, p, w) == Lookup(s.mem, p, w)
  {
    hide Inv, PmmOk, LoadSegments, SegmentsNeed, FilesSafe, SegmentOk, FreePages, PageDisjoint, RoundDown, RoundUp;
    hide Took, Opened, AllShown, InSegments, Lookup, UserByte, KeepsKernel;
    LoadSegmentsCorrect(s, p, exe, phs);
  }

  /* the theorem */

  // Every page of every segment has a new entry.
  ghost predicate AllRenewed(m: Mem, m': Mem, p: int, phs: seq<Phdr>)
    requires Pid(p)
  { forall w: u32 :: UserVa(w) && InSegments(phs, w) ==> Renewed(m, m', p, w) }

  // Every byte of every segment is as the file has it, the linkage page on top.
  ghost predicate Complete(m: Mem, m': Mem, p: int, exe: int, phs: seq<Phdr>, dll: u32)
    requires Pid(p) && SegmentsOk(phs, exe) && dll + DLL_SIZE <= VM_USERLO
  {
    && (forall k :: 0 <= k < |phs| && phs[k].Load() ==> ImageLoaded(m, m', p, exe, phs[k]))
    && LinkPage(m, m', p, dll)
  }

  // No page of a segment is mapped, and no segment is empty.
  ghost predicate Fresh(m: Mem, p: int, phs: seq<Phdr>)
    requires Pid(p)
  {
    && (forall w: u32 :: UserVa(w) && InSegments(phs, w) ==> !Mapped(m, p, w))
    && forall k :: 0 <= k < |phs| && phs[k].Load() ==> phs[k].memsz > 0
  }

  // elf_load reports nothing. It loads every byte, into new pages throughout, if and only if the allocator has
  // a page for each page of the image and for each table that is missing. Into a fresh process it loads every
  // byte only then. Where a page was mapped before, a failed allocation leaves the old one in its place.
  lemma ElfLoadsIff(s: Machine, p: int, exe: int, phs: seq<Phdr>, dll: u32)
    requires ImageOk(s, p, exe, phs, dll) && PmmOk(s.pool.pmm)
    ensures var m' := ElfLoad(s, p, exe, phs, dll).mem;
      ElfNeeds(s.mem, p, phs) <= |FreePages(s.pool.pmm)| <==>
      AllRenewed(s.mem, m', p, phs) && Complete(s.mem, m', p, exe, phs, dll)
    ensures Fresh(s.mem, p, phs) ==>
      (ElfNeeds(s.mem, p, phs) <= |FreePages(s.pool.pmm)| <==>
       Complete(s.mem, ElfLoad(s, p, exe, phs, dll).mem, p, exe, phs, dll))
  {
    hide Inv, PmmOk, ElfLoad, ElfNeeds, SegmentsNeed, FreePages, AllRenewed, Complete, SegmentOk, FilesSafe;
    hide PageDisjoint;
    hide KernelBuffer, Fresh;
    if ElfNeeds(s.mem, p, phs) <= |FreePages(s.pool.pmm)| {
      LoadsAll(s, p, exe, phs, dll);
    } else if SegmentsNeed(s.mem, p, phs) > |FreePages(s.pool.pmm)| {
      MissesSome(s, p, exe, phs, dll);
    } else {
      MissesLink(s, p, exe, phs, dll);
    }
  }

  lemma LoadsAll(s: Machine, p: int, exe: int, phs: seq<Phdr>, dll: u32)
    requires ImageOk(s, p, exe, phs, dll) && PmmOk(s.pool.pmm) && ElfNeeds(s.mem, p, phs) <= |FreePages(s.pool.pmm)|
    ensures var m' := ElfLoad(s, p, exe, phs, dll).mem;
      AllRenewed(s.mem, m', p, phs) && Complete(s.mem, m', p, exe, phs, dll)
  {
    hide Inv, PmmOk, LoadSegments, PtCopyout, ElfNeeds, SegmentsNeed, FreePages, SegmentOk, FilesSafe, PageDisjoint;
    hide KernelBuffer, AllDone, Took, Untouched, ImageLoaded, LinkPage, Opened, Confined, Holds, Needs;
    hide SameBytes, Renewed, InSegments;
    ElfLoadCorrect(s, p, exe, phs, dll);
    SegmentsFit(s, p, exe, phs);
    LoadSegmentsCorrect(s, p, exe, phs);
    var s1, s2 := LoadSegments(s, p, exe, phs), ElfLoad(s, p, exe, phs, dll);
    LinkCopy(s, s1, p, exe, phs, dll);
    forall w: u32 | UserVa(w) && InSegments(phs, w)
      ensures Renewed(s.mem, s2.mem, p, w)
    {
      LoadSegmentsRenew(s, p, exe, phs, w);
      StillRenewed(s.mem, s1, s2, p, w);
    }
  }

  lemma StillRenewed(m: Mem, s1: Machine, s2: Machine, p: int, w: u32)
    requires UserPid(p) && UserVa(w) && Renewed(m, s1.mem, p, w)
    requires Confined(s1, s2, p, VM_DYNLINK, VM_DYNLINK + DLL_SIZE)
    ensures Renewed(m, s2.mem, p, w)
  {
    hide Lookup, KeepsBytes, MapsOnly, KeepsKernel;
  }

  // Some page of a segment could not be had: it has the entry it had before, or none.
  lemma MissesSome(s: Machine, p: int, exe: int, phs: seq<Phdr>, dll: u32)
    requires ImageOk(s, p, exe, phs, dll) && PmmOk(s.pool.pmm) && SegmentsNeed(s.mem, p, phs) > |FreePages(s.pool.pmm)|
    ensures var m' := ElfLoad(s, p, exe, phs, dll).mem;
      !AllRenewed(s.mem, m', p, phs) && (Fresh(s.mem, p, phs) ==> !Complete(s.mem, m', p, exe, phs, dll))
  {
    hide Inv, PmmOk, LoadSegments, PtCopyout, SegmentsNeed, FreePages, SegmentOk, FilesSafe, PageDisjoint;
    hide KernelBuffer, Contained, Short, Complete, Fresh, Lookup, InSegments;
    var v := LoadSegmentsShort(s, p, exe, phs);
    var s1, s2 := LoadSegments(s, p, exe, phs), ElfLoad(s, p, exe, phs, dll);
    LoadSegmentsContained(s, p, exe, phs);
    ContainedInv(s, s1, p);
    CopyContained(s1, p, dll, VM_DYNLINK, DLL_SIZE);
    ContainedShort(s1, s2, p, v);
    var w: u32 := 4096 * v;
    assert UserVa(w) && InSegments(phs, w) && !Renewed(s.mem, s2.mem, p, w);
    if Fresh(s.mem, p, phs) {
      MissingByte(s.mem, s2.mem, p, exe, phs, dll, v);
    }
  }

  // A missing page of a segment holds some of its bytes.
  lemma {:induction false} MissingByte(m: Mem, m': Mem, p: int, exe: int, phs: seq<Phdr>, dll: u32, v: int)
    requires UserPid(p) && SegmentsOk(phs, exe) && dll + DLL_SIZE <= VM_USERLO && Fresh(m, p, phs)
    requires UserPage(v) && InSegments(phs, 4096 * v) && Lookup(m', p, 4096 * v) == Lookup(m, p, 4096 * v)
    ensures !Complete(m, m', p, exe, phs, dll)
  {
    hide Lookup, RoundDown, RoundUp, SegmentOk, InSegments, LinkPage, UserByte, FileByte, Phys;
    InSegmentsMeans(phs, 4096 * v);
    var k :| 0 <= k < |phs| && Covers(phs[k], 4096 * v);
    var w := ByteOfPage(phs[k], exe, v);
    if ImageLoaded(m, m', p, exe, phs[k]) {
      assert Image(m, m', p, exe, phs[k], w);
      MmuMapped(m', p, w);
      SamePageLookup(m', p, 4096 * v, w);
      assert false;
    }
  }

  lemma ByteOfPage(ph: Phdr, exe: int, v: int) returns (w: u32)
    requires SegmentOk(ph, exe) && ph.memsz > 0 && Covers(ph, 4096 * v) && UserPage(v)
    ensures ph.va <= w < ph.va + ph.memsz && w / 4096 == v && (4096 * v) / 4096 == v && UserVa(w)
  {
    hide RoundDown, RoundUp, SegmentOk, Placed, InMemory;
    EndBounds(ph, exe);
    w := Max(4096 * v, ph.va);
    InPageNumber(v, 4096 * v);
    InPageNumber(v, w);
  }

  lemma InPageNumber(v: int, w: int)
    requires 4096 * v <= w < 4096 * v + 4096
    ensures w / 4096 == v
  {
  }

  // The pages of a segment in terms of its header.
  lemma EndBounds(ph: Phdr, exe: int)
    requires SegmentOk(ph, exe)
    ensures VM_USERLO <= ph.va && ph.va + ph.memsz <= VM_USERHI && ph.va < ph.Start() + 4096
    ensures forall v :: 4096 * v >= ph.Start() && 4096 * v < End(ph) ==> 4096 * v < ph.va + ph.memsz
  {
    hide RoundDown, RoundUp, Placed, InMemory;
    SegmentBounds(ph, exe);
    EndExact(ph);
    forall v | ph.Start() <= 4096 * v < End(ph)
      ensures 4096 * v < ph.va + ph.memsz
    {
      NextPage(4096 * v, End(ph));
    }
  }

  lemma EndExact(ph: Phdr)
    requires ph.va + ph.memsz <= VM_USERHI
    ensures End(ph) == RoundUp(ph.va + ph.memsz) < ph.va + ph.memsz + 4096
  {
    hide RoundUp, ToU32;
    Unwrapped(ph.va + ph.memsz);
    RoundedUp(ph.va + ph.memsz);
  }

  lemma MmuMapped(m: Mem, p: int, w: u32)
    requires UserPid(p) && UserVa(w) && Mmu(m, p, w).Hit?
    ensures Mapped(m, p, w)
  {
    AddressParts(w);
    hide PdeIdx, PteIdx;
  }

  // The segments could be had, the linkage page could not.
  lemma MissesLink(s: Machine, p: int, exe: int, phs: seq<Phdr>, dll: u32)
    requires ImageOk(s, p, exe, phs, dll) && PmmOk(s.pool.pmm) && ElfNeeds(s.mem, p, phs) > |FreePages(s.pool.pmm)|
    requires SegmentsNeed(s.mem, p, phs) <= |FreePages(s.pool.pmm)|
    ensures !Complete(s.mem, ElfLoad(s, p, exe, phs, dll).mem, p, exe, phs, dll)
  {
    hide Inv, PmmOk, LoadSegments, WriteUser, ElfNeeds, FreePages, Ledger, Opened, Elsewhere, AllShown, KernelBuffer;
    hide SegmentOk, FilesSafe, PageDisjoint, InSegments, Mapped, Needs, SegmentsNeed, ImageLoaded, UserByte;
    LoadSegmentsCorrect(s, p, exe, phs);
    var s1 := LoadSegments(s, p, exe, phs);
    LinkShare(s, s1, p, exe, phs);
    var w := WriteUserFails(s1, p, VM_DYNLINK, DLL_SIZE, Kernel(dll));
    assert Linked(w);
  }
}
