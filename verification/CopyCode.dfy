// kern/lib/pmap.c, kern/lib/elf.c and kern/lib/trap.c as code over the machine: the copy loops, the
// loader's two loops and the page-fault handler, each equal to its specification on machine values.
module CopyCode {
  import opened Words
  import opened ByteStrings
  import opened PageAllocator
  import opened PageTables
  import opened PageMaps
  import opened Budget
  import opened UserCopy
  import opened KernelCode
  import opened Loader
  import opened LoadFailure
  import opened Views
  import Runs

  /* ----- pmap.c ----- */

  // get_ptbl_entry_by_va, and once more after an allocation when the page was missing.
  method EntryOnDemand(k: PageMap, p: int, uva: u32) returns (e: u32)
    requires k.Valid() && Pid(p) && PmmOk(k.View().pool.pmm)
    modifies k.Repr()
    ensures k.Valid() && k.View() == Touch(old(k.View()), p, uva) && e == Lookup(k.View().mem, p, uva)
  {
    hide PmmOk, Lookup, AllocPage;
    e := k.GetPtblEntryByVa(p, uva);
    if e % 2 == 0 {
      var _ := k.DoAllocPage(p, uva, PTE_P + PTE_U + PTE_W);
      e := k.GetPtblEntryByVa(p, uva);
    }
  }

  // (entry & 0xfffff000) + uva % PAGESIZE, and the bytes left in that page.
  lemma Chunk(e: u32, uva: u32, len: int)
    requires 0 < len
    ensures var pa := e / 4096 * 4096 + uva % 4096;
      0 <= pa && pa % 4096 == uva % 4096
        && (if len < 4096 - pa % 4096 then len else 4096 - pa % 4096) == ChunkSize(uva, len)
    ensures e / 4096 * 4096 + uva % 4096 + ChunkSize(uva, len) <= MEM_SIZE
  {
  }

  lemma {:induction false} WriteUnfold(s: Machine, p: int, uva: u32, len: int, src: Source)
    requires Pid(p) && PmmOk(s.pool.pmm) && 0 < len && SourceInRange(src, len)
    ensures var n := ChunkSize(uva, len);
      && SourceInRange(src, n)
      && WriteUser(s, p, uva, len, src)
        == WriteUser(WriteChunk(s, p, uva, n, src), p, NextVa(uva, n), len - n, Advance(src, n))
  {
    hide PmmOk, WriteChunk;
  }

  lemma ReadUnfold(s: Machine, p: int, uva: u32, kva: int, len: int)
    requires Pid(p) && PmmOk(s.pool.pmm) && 0 < len && 0 <= kva && kva + len <= MEM_SIZE
    ensures var n := ChunkSize(uva, len);
      ReadUser(s, p, uva, kva, len) == ReadUser(ReadChunk(s, p, uva, kva, n), p, NextVa(uva, n), kva + n, len - n)
  {
    hide PmmOk, ReadChunk;
  }

  lemma {:induction false} NothingLeft(s: Machine, p: int, uva: u32, kva: int, src: Source)
    requires Pid(p) && PmmOk(s.pool.pmm) && 0 <= kva <= MEM_SIZE && SourceInRange(src, 0)
    ensures WriteUser(s, p, uva, 0, src) == s && ReadUser(s, p, uva, kva, 0) == s
  {
    hide PmmOk;
  }

  method DoCopyout(k: PageMap, kva: u32, p: int, uva: u32, len: u32) returns (copied: int)
    requires k.Valid() && Pid(p) && PmmOk(k.View().pool.pmm) && kva + len <= MEM_SIZE
    modifies k.Repr()
    ensures k.Valid() && (k.View(), copied) == PtCopyout(old(k.View()), kva, p, uva, len)
  {
    hide PmmOk, Touch, Lookup, CopyBytes, WriteUser, ReadUser;
    if !(VM_USERLO <= uva && ToU32(uva + len) <= VM_USERHI) {
      return 0;
    }
    if ToU32(kva + len) > VM_USERHI {
      return 0;
    }
    ghost var s0 := k.View();
    var n, u, a := len, uva, kva;
    copied := 0;
    while n != 0
      invariant 0 <= n <= len && a == kva + copied && copied + n == len
      invariant k.Valid() && PmmOk(k.View().pool.pmm)
      invariant WriteUser(k.View(), p, u, n, Kernel(a)) == WriteUser(s0, p, uva, len, Kernel(kva))
    {
      ghost var s := k.View();
      WriteUnfold(s, p, u, n, Kernel(a));
      var e := EntryOnDemand(k, p, u);
      Chunk(e, u, n);
      var pa := e / 4096 * 4096 + u % 4096;
      var size := if n < 4096 - pa % 4096 then n else 4096 - pa % 4096;
      Memmove(k.mem, pa, a, size);
      assert k.View() == WriteChunk(s, p, u, size, Kernel(a));
      n, u, a, copied := n - size, ToU32(u + size), a + size, copied + size;
    }
    NothingLeft(k.View(), p, u, a, Kernel(a));
  }

  method DoCopyin(k: PageMap, p: int, uva: u32, kva: u32, len: u32) returns (copied: int)
    requires k.Valid() && Pid(p) && PmmOk(k.View().pool.pmm) && kva + len <= MEM_SIZE
    modifies k.Repr()
    ensures k.Valid() && (k.View(), copied) == PtCopyin(old(k.View()), p, uva, kva, len)
  {
    hide PmmOk, Touch, Lookup, CopyBytes, WriteUser, ReadUser;
    if !(VM_USERLO <= uva && ToU32(uva + len) <= VM_USERHI) {
      return 0;
    }
    if ToU32(kva + len) > VM_USERHI {
      return 0;
    }
    ghost var s0 := k.View();
    var n, u, a := len, uva, kva;
    copied := 0;
    while n != 0
      invariant 0 <= n <= len && a == kva + copied && copied + n == len
      invariant k.Valid() && PmmOk(k.View().pool.pmm)
      invariant ReadUser(k.View(), p, u, a, n) == ReadUser(s0, p, uva, kva, len)
    {
      ghost var s := k.View();
      ReadUnfold(s, p, u, a, n);
      var e := EntryOnDemand(k, p, u);
      Chunk(e, u, n);
      var pa := e / 4096 * 4096 + u % 4096;
      var size := if n < 4096 - pa % 4096 then n else 4096 - pa % 4096;
      Memmove(k.mem, a, pa, size);
      assert k.View() == ReadChunk(s, p, u, a, size);
      n, u, a, copied := n - size, ToU32(u + size), a + size, copied + size;
    }
    NothingLeft(k.View(), p, u, a, Kernel(a));
  }

  method DoMemset(k: PageMap, p: int, va: u32, c: int, len: u32) returns (written: int)
    requires k.Valid() && Pid(p) && PmmOk(k.View().pool.pmm)
    modifies k.Repr()
    ensures k.Valid() && (k.View(), written) == PtMemset(old(k.View()), p, va, c, len)
  {
    hide PmmOk, Touch, Lookup, FillBytes, WriteUser;
    ghost var s0 := k.View();
    var n, u := len, va;
    written := 0;
    while n != 0
      invariant 0 <= n <= len && written + n == len
      invariant k.Valid() && PmmOk(k.View().pool.pmm)
      invariant WriteUser(k.View(), p, u, n, Constant(c % 0x100)) == WriteUser(s0, p, va, len, Constant(c % 0x100))
    {
      ghost var s := k.View();
      WriteUnfold(s, p, u, n, Constant(c % 0x100));
      var e := EntryOnDemand(k, p, u);
      Chunk(e, u, n);
      var pa := e / 4096 * 4096 + u % 4096;
      var size := if n < 4096 - pa % 4096 then n else 4096 - pa % 4096;
      Memset(k.mem, pa, c, size);
      assert k.View() == WriteChunk(s, p, u, size, Constant(c % 0x100));
      n, u, written := n - size, ToU32(u + size), written + size;
    }
    NothingLeft(k.View(), p, u, 0, Constant(c % 0x100));
  }

  /* ----- elf.c ----- */

  // The body of the page loop.
  method DoLoadPage(k: PageMap, p: int, fa: u32, va: u32, zva: u32, filesz: u32, perm: int)
    requires k.Valid() && Pid(p) && PmmOk(k.View().pool.pmm) && 0 <= perm < 4096
    requires fa + 4096 <= MEM_SIZE && va % 4096 == 0
    modifies k.Repr()
    ensures k.Valid() && k.View() == LoadPage(old(k.View()), p, fa, va, zva, filesz, perm)
  {
    hide PmmOk, AllocPage, PtCopyout, PtMemset, RoundDown;
    AllocPageCursor(k.View(), p, va, perm);
    var _ := k.DoAllocPage(p, va, perm);
    if va < RoundDown(zva) {
      var _ := DoCopyout(k, fa, p, va, 4096);
    } else if va < zva && filesz != 0 {
      var _ := DoMemset(k, p, va, 0, 4096);
      Leftover(va, zva);
      var _ := DoCopyout(k, fa, p, va, zva - va);
    } else {
      var _ := DoMemset(k, p, va, 0, 4096);
    }
  }

  method DoLoadPages(k: PageMap, p: int, fa0: int, va0: int, eva: int, zva: u32, filesz: u32, perm: int)
    requires k.Valid() && Pid(p) && PmmOk(k.View().pool.pmm) && 0 <= perm < 4096
    requires 0 <= va0 && eva < MEM_SIZE && va0 % 4096 == 0 == eva % 4096
    requires 0 <= fa0 && (va0 < eva ==> fa0 + (eva - va0) <= MEM_SIZE)
    modifies k.Repr()
    ensures k.Valid() && k.View() == LoadPages(old(k.View()), p, fa0, va0, eva, zva, filesz, perm)
  {
    hide PmmOk, LoadPage;
    ghost var s0 := k.View();
    var fa, va := fa0, va0;
    while va < eva
      invariant va0 <= va && va % 4096 == 0 && va - va0 == fa - fa0 && k.Valid() && PmmOk(k.View().pool.pmm)
      invariant LoadPages(k.View(), p, fa, va, eva, zva, filesz, perm)
        == LoadPages(s0, p, fa0, va0, eva, zva, filesz, perm)
    {
      NextPage(va, eva);
      DoLoadPage(k, p, fa, va, zva, filesz, perm);
      va, fa := va + 4096, fa + 4096;
    }
  }

  // One pass of the header loop.
  method DoLoadSegment(k: PageMap, p: int, exe: int, ph: Phdr)
    requires k.Valid() && Pid(p) && PmmOk(k.View().pool.pmm) && (ph.Load() ==> InMemory(ph, exe))
    modifies k.Repr()
    ensures k.Valid() && k.View() == LoadSegment(old(k.View()), p, exe, ph)
  {
    hide PmmOk, LoadPages, RoundDown, RoundUp;
    if ph.typ != ELF_PROG_LOAD {
      return;
    }
    PageBounds(ph);
    var fa, va := exe + RoundDown(ph.offset), RoundDown(ph.va);
    var zva, eva := ToU32(ph.va + ph.filesz), RoundUp(ToU32(ph.va + ph.memsz));
    var perm := PTE_U + PTE_P;
    if ph.flags / 2 % 2 == 1 {
      perm := perm + PTE_W;
    }
    DoLoadPages(k, p, fa, va, eva, zva, ph.filesz, perm);
  }

  // Program headers as they lie in memory, 32 bytes each.
  function HeaderAt(m: Mem, a: int): Phdr
    requires 0 <= a && a + 32 <= MEM_SIZE
  { Phdr(Word(m, a), Word(m, a + 4), Word(m, a + 8), Word(m, a + 16), Word(m, a + 20), Word(m, a + 24)) }

  function Headers(m: Mem, a: int, n: nat): (hs: seq<Phdr>)
    requires 0 <= a && a + 32 * n <= MEM_SIZE
    decreases n
  { if n == 0 then [] else [HeaderAt(m, a)] + Headers(m, a + 32, n - 1) }

  // e_phoff and e_phnum of the ELF header at exe.
  function HeaderTable(m: Mem, exe: int): int
    requires 0 <= exe && exe + 52 <= MEM_SIZE
  { exe + Word(m, exe + 28) }

  function HeaderCount(m: Mem, exe: int): (n: nat)
    requires 0 <= exe && exe + 52 <= MEM_SIZE
  { m[exe + 44] as int + 0x100 * m[exe + 45] as int }

  lemma {:induction false} HeadersKept(m: Mem, m1: Mem, a: int, n: nat)
    requires SameBytes(m, m1, a, 32 * n)
    ensures Headers(m1, a, n) == Headers(m, a, n)
    decreases n
  {
    hide HeaderAt;
    if n > 0 {
      HeadersKept(m, m1, a + 32, n - 1);
      HeaderKept(m, m1, a);
    }
  }

  lemma HeaderKept(m: Mem, m1: Mem, a: int)
    requires SameBytes(m, m1, a, 32)
    ensures HeaderAt(m1, a) == HeaderAt(m, a)
  {
  }

  // The header loop reads each header from memory as it is then. What it asks for is that the headers it
  // comes to name file pages that are memory.
  ghost predicate Readable(s: Machine, p: int, exe: int, a: int, n: nat)
    requires Pid(p) && PmmOk(s.pool.pmm) && 0 <= a && a + 32 * n <= MEM_SIZE
    decreases n
  {
    n == 0 ||
    var ph := HeaderAt(s.mem, a);
    && (ph.Load() ==> InMemory(ph, exe))
    && Readable(LoadSegment(s, p, exe, ph), p, exe, a + 32, n - 1)
  }

  ghost function LoadHeaders(s: Machine, p: int, exe: int, a: int, n: nat): (r: Machine)
    requires Pid(p) && PmmOk(s.pool.pmm) && 0 <= a && a + 32 * n <= MEM_SIZE && Readable(s, p, exe, a, n)
    ensures PmmOk(r.pool.pmm)
    decreases n
  {
    hide PmmOk, InMemory, LoadSegment;
    if n == 0 then s else LoadHeaders(LoadSegment(s, p, exe, HeaderAt(s.mem, a)), p, exe, a + 32, n - 1)
  }

  // Loading a segment, even when memory runs out on the way, leaves the headers behind it as they were.
  lemma {:induction false} HeadersStay(s: Machine, p: int, exe: int, ph: Phdr, a: int, n: nat)
    requires Inv(s) && UserPid(p) && (ph.Load() ==> Placed(ph, exe)) && PmmOk(s.pool.pmm)
    requires KernelBuffer(s, a, 32 * n) && 4096 <= a
    ensures var s1 := LoadSegment(s, p, exe, ph);
      Inv(s1) && KernelBuffer(s1, a, 32 * n) && Headers(s1.mem, a, n) == Headers(s.mem, a, n)
  {
    hide Inv, PmmOk, LoadSegment, Placed, InMemory, KernelBuffer, Headers, Contained;
    var s1 := LoadSegment(s, p, exe, ph);
    LoadSegmentContained(s, p, exe, ph);
    ContainedInv(s, s1, p);
    BufferSame(s, s1, p, a, 32 * n);
    HeadersKept(s.mem, s1.mem, a, n);
  }

  lemma BufferSame(s: Machine, s1: Machine, p: int, a: int, n: int)
    requires Pid(p) && Contained(s, s1, p) && KernelBuffer(s, a, n) && 4096 <= a
    ensures KernelBuffer(s1, a, n) && SameBytes(s.mem, s1.mem, a, n)
  {
    hide Inv, KernelByte, SameView, SamePerms;
    SamePermsBuffer(s, s1, a, 0, n);
  }

  // So the loop loads what the headers say at the start, when its pages are user pages and the headers lie in
  // kernel memory proper, outside page 0.
  lemma {:induction false} LoadHeadersIs(s: Machine, p: int, exe: int, a: int, n: nat)
    requires Inv(s) && UserPid(p) && PmmOk(s.pool.pmm) && KernelBuffer(s, a, 32 * n) && 4096 <= a
    requires AllPlaced(Headers(s.mem, a, n), exe)
    ensures Readable(s, p, exe, a, n) && LoadHeaders(s, p, exe, a, n) == LoadSegments(s, p, exe, Headers(s.mem, a, n))
    decreases n
  {
    hide Inv, PmmOk, LoadSegment, Placed, InMemory, KernelByte, HeaderAt;
    if n > 0 {
      var phs := Headers(s.mem, a, n);
      assert phs[0] == HeaderAt(s.mem, a) && phs[1..] == Headers(s.mem, a + 32, n - 1);
      HeadersStay(s, p, exe, phs[0], a + 32, n - 1);
      LoadHeadersIs(LoadSegment(s, p, exe, phs[0]), p, exe, a + 32, n - 1);
    }
  }

  ghost predicate Runnable(s: Machine, p: int, exe: int, dll: int) {
    && Pid(p) && PmmOk(s.pool.pmm) && 0 <= exe && exe + 52 <= MEM_SIZE && 0 <= dll && dll + DLL_SIZE <= MEM_SIZE
    && HeaderTable(s.mem, exe) + 32 * HeaderCount(s.mem, exe) <= MEM_SIZE
    && Readable(s, p, exe, HeaderTable(s.mem, exe), HeaderCount(s.mem, exe))
  }

  // elf_load: the header loop, and the linkage page last.
  ghost function ElfRun(s: Machine, p: int, exe: int, dll: int): Machine
    requires Runnable(s, p, exe, dll)
  {
    hide PmmOk, Readable, PtCopyout;
    PtCopyout(LoadHeaders(s, p, exe, HeaderTable(s.mem, exe), HeaderCount(s.mem, exe)), dll, p, VM_DYNLINK, DLL_SIZE).0
  }

  // Nothing is asked of the segments' addresses, nor of the free pages.
  method DoElfLoad(k: PageMap, exe: u32, p: int, dll: u32)
    requires k.Valid() && Runnable(k.View(), p, exe, dll)
    modifies k.Repr()
    ensures k.Valid() && k.View() == ElfRun(old(k.View()), p, exe, dll)
  {
    hide PmmOk, LoadSegment, InMemory, PtCopyout, HeaderAt;
    ghost var s0 := k.View();
    var phoff := LoadWord(k.mem, exe + 28);
    var phnum := k.mem[exe + 44] as int + 0x100 * k.mem[exe + 45] as int;
    var ph := exe + phoff;
    var eph := ph + 32 * phnum;
    ghost var n, ph0 := phnum, ph;
    while ph < eph
      invariant 0 <= n && 0 <= ph && ph + 32 * n == eph && k.Valid() && PmmOk(k.View().pool.pmm)
      invariant Readable(k.View(), p, exe, ph, n)
      invariant LoadHeaders(k.View(), p, exe, ph, n) == LoadHeaders(s0, p, exe, ph0, phnum)
    {
      var header := DoReadHeader(k, ph);
      DoLoadSegment(k, p, exe, header);
      ph, n := ph + 32, n - 1;
    }
    var _ := DoCopyout(k, dll, p, VM_DYNLINK, DLL_SIZE);
  }

  // It loads what the headers found at the start say.
  lemma {:induction false} ElfLoadIs(s: Machine, p: int, exe: u32, dll: u32)
    requires Inv(s) && UserPid(p) && PmmOk(s.pool.pmm) && exe + 52 <= MEM_SIZE && dll + DLL_SIZE <= MEM_SIZE
    requires 4096 <= HeaderTable(s.mem, exe) && KernelBuffer(s, HeaderTable(s.mem, exe), 32 * HeaderCount(s.mem, exe))
    requires AllPlaced(Headers(s.mem, HeaderTable(s.mem, exe), HeaderCount(s.mem, exe)), exe)
    ensures Runnable(s, p, exe, dll)
    ensures ElfRun(s, p, exe, dll)
         == ElfLoad(s, p, exe, Headers(s.mem, HeaderTable(s.mem, exe), HeaderCount(s.mem, exe)), dll)
  {
    hide Inv, PmmOk, LoadSegments, LoadHeaders, Readable, PtCopyout, Placed, InMemory, KernelByte, Headers;
    LoadHeadersIs(s, p, exe, HeaderTable(s.mem, exe), HeaderCount(s.mem, exe));
  }

  method DoReadHeader(k: PageMap, a: int) returns (ph: Phdr)
    requires k.Valid() && 0 <= a && a + 32 <= MEM_SIZE
    ensures ph == HeaderAt(k.View().mem, a)
  {
    var typ := LoadWord(k.mem, a);
    var offset := LoadWord(k.mem, a + 4);
    var va := LoadWord(k.mem, a + 8);
    var filesz := LoadWord(k.mem, a + 16);
    var memsz := LoadWord(k.mem, a + 20);
    var flags := LoadWord(k.mem, a + 24);
    ph := Phdr(typ, offset, va, filesz, memsz, flags);
  }

  /* ----- trap.c ----- */

  // pgflt_handler; a protection fault makes the kernel panic, so nothing is changed.
  method HandleFault(k: PageMap, cid: int, err: u32, faultVa: u32)
    requires k.Valid() && Pid(cid) && PmmOk(k.View().pool.pmm)
    modifies k.Repr()
    ensures k.Valid() && k.View() == Runs.PageFault(old(k.View()), cid, err, faultVa)
  {
    if err % 2 == 1 {
      return;
    }
    var _ := k.DoAllocPage(cid, RoundDown(faultVa), PTE_W + PTE_U + PTE_P);
  }
}
