// elf_load from the bytes of the image to the bytes and flags the process sees, in the words of the file
// format: the ELF header and the program headers of the TIS ELF specification 1.2, little-endian.
module ImageBytes {
  import opened Words
  import opened PageAllocator
  import opened Containers
  import opened PageTables
  import opened PageMaps
  import opened Quota
  import opened Budget
  import opened UserCopy
  import opened Loader
  import opened LoadFailure
  import opened CopyCode

  /* ----- an image in words ----- */

  // The k-th of the 32-byte headers that start at a.
  function At(a: int, k: int): int { a + 32 * k }

  // A program header at h is eight words: type, offset, virtual address, physical address, size in the file,
  // size in memory, flags, alignment. A loadable one, of type 1, covers the pages its addresses fall into.
  predicate CoversPage(m: Mem, h: int, v: int)
    requires 0 <= h && h + 32 <= MEM_SIZE
  { Word(m, h) == 1 && Word(m, h + 8) / 4096 <= v && 4096 * v < Word(m, h + 8) + Word(m, h + 20) }

  // The pages of an image whose n program headers start at a.
  ghost function ImagePages(m: Mem, a: int, n: int): (vs: set<int>)
    requires 0 <= a && a + 32 * n <= MEM_SIZE
  { set v | 0x4_0000 <= v < 0xF_0000 && InImage(m, a, n, v) }

  ghost predicate InImage(m: Mem, a: int, n: int, v: int)
    requires 0 <= a && a + 32 * n <= MEM_SIZE
  { exists k :: 0 <= k < n && CoversPage(m, At(a, k), v) }

  // What loading takes: the pages, the linkage page at 0xE0000000 unless it is mapped or among them, and the
  // tables these pages need and do not have.
  ghost function ImageNeeds(m: Mem, p: int, a: int, n: int): int
    requires Pid(p) && 0 <= a && a + 32 * n <= MEM_SIZE
  {
    |ImagePages(m, a, n)| + (if Mapped(m, p, 0xE000_0000) || 0xE_0000 in ImagePages(m, a, n) then 0 else 1)
    + |Absent(m, p, ImageSlots(m, a, n))|
  }

  ghost function ImageSlots(m: Mem, a: int, n: int): (ds: set<int>)
    requires 0 <= a && a + 32 * n <= MEM_SIZE
  { (set v | v in ImagePages(m, a, n) :: v / 1024) + {0xE000_0000 / 0x40_0000} }

  // A well-formed segment: in the user range, no larger in the file than in memory, aligned alike, and its
  // file part in the kernel's own memory, from the start of its first page on.
  ghost predicate GoodSegment(s: Machine, exe: int, h: int)
    requires 0 <= h && h + 32 <= MEM_SIZE
  {
    var offset, va, filesz, memsz := Word(s.mem, h + 4), Word(s.mem, h + 8), Word(s.mem, h + 16), Word(s.mem, h + 20);
    && 0x4000_0000 <= va && va + memsz <= 0xF000_0000 && filesz <= memsz && offset % 4096 == va % 4096
    && 0 <= exe && exe + offset + filesz <= 0x4000_0000
    && (filesz > 0 ==> KernelBuffer(s, exe + offset - offset % 4096, offset % 4096 + filesz))
  }

  // No page belongs to two segments.
  ghost predicate Apart(m: Mem, g: int, h: int)
    requires 0 <= g && g + 32 <= MEM_SIZE && 0 <= h && h + 32 <= MEM_SIZE
  {
    || Word(m, g + 8) + Word(m, g + 20) <= Word(m, h + 8) - Word(m, h + 8) % 4096
    || Word(m, h + 8) + Word(m, h + 20) <= Word(m, g + 8) - Word(m, g + 8) % 4096
  }

  // The header table and the linkage table lie in the kernel's own memory, the headers outside page 0.
  ghost predicate GoodImage(s: Machine, exe: int, dll: int, a: int, n: int) {
    && 4096 <= a && 0 <= n && KernelBuffer(s, a, 32 * n) && KernelBuffer(s, dll, 4096) && dll + 4096 <= 0x4000_0000
    && (forall k :: 0 <= k < n && Word(s.mem, At(a, k)) == 1 ==> GoodSegment(s, exe, At(a, k)))
    && (forall j, k :: 0 <= j < k < n && Word(s.mem, At(a, j)) == 1 && Word(s.mem, At(a, k)) == 1 ==>
         Apart(s.mem, At(a, j), At(a, k)))
  }

  /* ----- the headers as the loader reads them ----- */

  lemma {:induction false} HeaderK(m: Mem, a: int, n: nat, k: int)
    requires 0 <= a && a + 32 * n <= MEM_SIZE && 0 <= k < n
    ensures |Headers(m, a, n)| == n && Headers(m, a, n)[k] == HeaderAt(m, At(a, k))
    decreases n
  {
    hide HeaderAt;
    HeaderCountIs(m, a, n);
    if k > 0 {
      HeaderK(m, a + 32, n - 1, k - 1);
    }
  }

  lemma {:induction false} HeaderCountIs(m: Mem, a: int, n: nat)
    requires 0 <= a && a + 32 * n <= MEM_SIZE
    ensures |Headers(m, a, n)| == n
    decreases n
  {
    hide HeaderAt;
    if n > 0 {
      HeaderCountIs(m, a + 32, n - 1);
    }
  }

  lemma HeaderWords(m: Mem, h: int)
    requires 0 <= h && h + 32 <= MEM_SIZE
    ensures var ph := HeaderAt(m, h);
      && ph.typ == Word(m, h) && ph.offset == Word(m, h + 4) && ph.va == Word(m, h + 8)
      && ph.filesz == Word(m, h + 16) && ph.memsz == Word(m, h + 20) && ph.flags == Word(m, h + 24)
  {
    hide Word;
  }

  lemma SegmentIs(s: Machine, exe: int, h: int)
    requires 0 <= h && h + 32 <= MEM_SIZE && GoodSegment(s, exe, h)
    ensures SegmentOk(HeaderAt(s.mem, h), exe) && FileSafe(s, exe, HeaderAt(s.mem, h))
  {
    HeaderWords(s.mem, h);
    hide HeaderAt, Word, KernelBuffer, SegmentOk, FileSafe;
    var ph := HeaderAt(s.mem, h);
    PlacedFrom(ph, exe);
    FileFrom(s, exe, ph);
  }

  lemma PlacedFrom(ph: Phdr, exe: int)
    requires VM_USERLO <= ph.va && ph.va + ph.memsz <= VM_USERHI && ph.filesz <= ph.memsz
    requires ph.offset % 4096 == ph.va % 4096 && 0 <= exe && exe + ph.offset + ph.filesz <= VM_USERLO
    ensures SegmentOk(ph, exe)
  {
    hide RoundDown, RoundUp, ToU32;
    RoundedDown(ph.va);
    RoundedDown(ph.offset);
    EndExact(ph);
    RoundedUp(ph.va + ph.memsz);
  }

  lemma FileFrom(s: Machine, exe: int, ph: Phdr)
    requires SegmentOk(ph, exe)
    requires ph.filesz > 0 ==> KernelBuffer(s, exe + ph.offset - ph.offset % 4096, ph.offset % 4096 + ph.filesz)
    ensures FileSafe(s, exe, ph)
  {
    hide RoundDown, RoundUp, KernelByte, Placed, InMemory;
    SegmentBounds(ph, exe);
    RoundedDown(ph.offset);
    RoundedDown(ph.va);
  }

  lemma StartEnd(ph: Phdr, exe: int)
    requires SegmentOk(ph, exe)
    ensures ph.Start() == ph.va - ph.va % 4096
    ensures forall b :: b % 4096 == 0 ==> (End(ph) <= b <==> ph.va + ph.memsz <= b)
  {
    hide RoundDown, RoundUp, Placed, InMemory;
    SegmentBounds(ph, exe);
    RoundedDown(ph.va);
    EndExact(ph);
    forall b | b % 4096 == 0
      ensures End(ph) <= b <==> ph.va + ph.memsz <= b
    {
      NextPage(b, End(ph));
    }
  }

  lemma PagesApart(m: Mem, g: int, h: int, exe: int)
    requires 0 <= g && g + 32 <= MEM_SIZE && 0 <= h && h + 32 <= MEM_SIZE && Apart(m, g, h)
    requires SegmentOk(HeaderAt(m, g), exe) && SegmentOk(HeaderAt(m, h), exe)
    ensures End(HeaderAt(m, g)) <= HeaderAt(m, h).Start() || End(HeaderAt(m, h)) <= HeaderAt(m, g).Start()
  {
    HeaderWords(m, g);
    HeaderWords(m, h);
    hide HeaderAt, Word, RoundDown, RoundUp, SegmentOk;
    StartEnd(HeaderAt(m, g), exe);
    StartEnd(HeaderAt(m, h), exe);
    SegmentBounds(HeaderAt(m, g), exe);
    SegmentBounds(HeaderAt(m, h), exe);
  }

  lemma {:induction false} ImageIsOk(s: Machine, p: int, exe: int, dll: int, a: int, n: nat)
    requires Inv(s) && UserPid(p) && GoodImage(s, exe, dll, a, n)
    ensures 0 <= dll && ImageOk(s, p, exe, Headers(s.mem, a, n), dll)
  {
    hide Inv, HeaderAt, Headers, GoodSegment, Apart, KernelByte, SegmentOk, FileSafe, RoundDown, RoundUp, Word;
    var phs := Headers(s.mem, a, n);
    HeaderCountIs(s.mem, a, n);
    forall k | 0 <= k < n && phs[k].Load()
      ensures Word(s.mem, At(a, k)) == 1 && phs[k] == HeaderAt(s.mem, At(a, k))
      ensures SegmentOk(phs[k], exe) && FileSafe(s, exe, phs[k])
    {
      HeaderK(s.mem, a, n, k);
      HeaderWords(s.mem, At(a, k));
      SegmentIs(s, exe, At(a, k));
    }
    forall j, k | 0 <= j < k < n && phs[j].Load() && phs[k].Load()
      ensures End(phs[j]) <= phs[k].Start() || End(phs[k]) <= phs[j].Start()
    {
      PagesApart(s.mem, At(a, j), At(a, k), exe);
    }
  }

  /* ----- its pages and its price ----- */

  lemma CoversIs(ph: Phdr, exe: int, v: int)
    requires SegmentOk(ph, exe)
    ensures ph.Start() <= 4096 * v < End(ph) <==> ph.va / 4096 <= v && 4096 * v < ph.va + ph.memsz
  {
    hide RoundDown, RoundUp, SegmentOk;
    StartEnd(ph, exe);
    PageSplit(v, 0);
    assert 4096 * v % 4096 == 0;
  }

  // User pages of the segments, as a set of page numbers.
  ghost function PagesOf(phs: seq<Phdr>): (vs: set<int>) {
    set v | 0x4_0000 <= v < 0xF_0000 && InSegments(phs, 4096 * v)
  }

  lemma {:induction false} PagesOfImage(s: Machine, p: int, exe: int, dll: int, a: int, n: nat)
    requires GoodImage(s, exe, dll, a, n) && SegmentsOk(Headers(s.mem, a, n), exe)
    ensures PagesOf(Headers(s.mem, a, n)) == ImagePages(s.mem, a, n)
  {
    hide HeaderAt, Headers, GoodSegment, Apart, KernelByte, SegmentOk, RoundDown, RoundUp, Word, InSegments, CoversPage;
    var phs := Headers(s.mem, a, n);
    HeaderCountIs(s.mem, a, n);
    forall v | 0x4_0000 <= v < 0xF_0000
      ensures InSegments(phs, 4096 * v) <==> exists k :: 0 <= k < n && CoversPage(s.mem, At(a, k), v)
    {
      InSegmentsMeans(phs, 4096 * v);
      forall k | 0 <= k < n
        ensures Covers(phs[k], 4096 * v) <==> CoversPage(s.mem, At(a, k), v)
      {
        HeaderK(s.mem, a, n, k);
        OneCovers(s.mem, exe, At(a, k), v);
      }
      if k :| 0 <= k < n && CoversPage(s.mem, At(a, k), v) {
        assert Covers(phs[k], 4096 * v);
      }
    }
  }

  lemma OneCovers(m: Mem, exe: int, h: int, v: int)
    requires 0 <= h && h + 32 <= MEM_SIZE && (HeaderAt(m, h).Load() ==> SegmentOk(HeaderAt(m, h), exe))
    ensures Covers(HeaderAt(m, h), 4096 * v) <==> CoversPage(m, h, v)
  {
    HeaderWords(m, h);
    hide HeaderAt, Word, SegmentOk, RoundDown, RoundUp;
    if HeaderAt(m, h).Load() {
      CoversIs(HeaderAt(m, h), exe, v);
    }
  }

  predicate Within(lo: int, v: int, hi: int) { lo <= v < hi }

  function Span(lo: int, hi: int): (vs: set<int>) { set v | lo <= v < hi && Within(lo, v, hi) }

  lemma {:induction false} CountRange(lo: int, hi: int)
    requires lo <= hi
    ensures |Span(lo, hi)| == hi - lo
    decreases hi - lo
  {
    if lo < hi {
      CountRange(lo, hi - 1);
      assert Span(lo, hi) == Span(lo, hi - 1) + {hi - 1} && hi - 1 !in Span(lo, hi - 1);
    } else {
      assert Span(lo, hi) == {};
    }
  }

  lemma {:induction false} PagesCounted(phs: seq<Phdr>, exe: int)
    requires SegmentsOk(phs, exe) && PageDisjoint(phs)
    ensures Pages(phs) == |PagesOf(phs)|
    decreases |phs|
  {
    hide SegmentOk, RoundDown, RoundUp, InSegments, PageCount;
    if phs == [] {
      NoPages();
    } else {
      TailDisjoint(phs);
      PagesCounted(phs[1..], exe);
      HeadPages(phs, exe);
    }
  }

  lemma NoPages()
    ensures Pages([]) == 0 && PagesOf([]) == {} && SlotsOf([]) == {}
  {
    assert forall v :: !InSegments([], 4096 * v);
  }

  lemma {:induction false} HeadPages(phs: seq<Phdr>, exe: int)
    requires SegmentsOk(phs, exe) && PageDisjoint(phs) && phs != []
    ensures |PagesOf(phs)|
      == (if phs[0].Load() then PageCount(phs[0].Start(), End(phs[0])) else 0) + |PagesOf(phs[1..])|
  {
    hide SegmentOk, RoundDown, RoundUp, Placed, InMemory;
    var rest := PagesOf(phs[1..]);
    var first := set v | 0x4_0000 <= v < 0xF_0000 && Covers(phs[0], 4096 * v);
    assert PagesOf(phs) == first + rest;
    forall v | v in first
      ensures v !in rest
    {
      NotCovered(phs, 4096 * v);
    }
    if phs[0].Load() {
      FirstPages(phs[0], exe, first);
    } else {
      assert first == {};
    }
  }

  lemma FirstPages(ph: Phdr, exe: int, vs: set<int>)
    requires SegmentOk(ph, exe) && ph.Load() && vs == set v | 0x4_0000 <= v < 0xF_0000 && Covers(ph, 4096 * v)
    ensures |vs| == PageCount(ph.Start(), End(ph))
  {
    hide RoundDown, RoundUp, SegmentOk;
    SegmentBounds(ph, exe);
    var lo, hi := ph.Start() / 4096, End(ph) / 4096;
    assert ph.Start() == 4096 * lo && End(ph) == 4096 * hi;
    PageSplit(hi - lo, 0);
    assert vs == Span(lo, hi);
    CountRange(lo, hi);
  }

  lemma {:induction false} SlotsCounted(phs: seq<Phdr>, exe: int)
    requires SegmentsOk(phs, exe)
    ensures SlotsOf(phs) == set v | v in PagesOf(phs) :: v / 1024
    decreases |phs|
  {
    hide SegmentOk, RoundDown, RoundUp, Slots, Covers;
    if phs == [] {
      NoPages();
    } else {
      SlotsCounted(phs[1..], exe);
      HeadSlots(phs, exe);
    }
  }

  lemma {:induction false} HeadSlots(phs: seq<Phdr>, exe: int)
    requires SegmentsOk(phs, exe) && phs != []
    ensures (set v | v in PagesOf(phs) :: v / 1024)
         == (if phs[0].Load() then Slots(phs[0].Start(), End(phs[0])) else {})
            + set v | v in PagesOf(phs[1..]) :: v / 1024
  {
    hide SegmentOk, RoundDown, RoundUp, Slots, Placed, InMemory;
    var first := set v | 0x4_0000 <= v < 0xF_0000 && Covers(phs[0], 4096 * v);
    assert PagesOf(phs) == first + PagesOf(phs[1..]);
    if phs[0].Load() {
      FirstSlots(phs[0], exe, first);
    } else {
      assert first == {};
    }
  }

  lemma FirstSlots(ph: Phdr, exe: int, vs: set<int>)
    requires SegmentOk(ph, exe) && ph.Load() && vs == set v | 0x4_0000 <= v < 0xF_0000 && Covers(ph, 4096 * v)
    ensures Slots(ph.Start(), End(ph)) == set v | v in vs :: v / 1024
  {
    hide RoundDown, RoundUp, SegmentOk;
    SegmentBounds(ph, exe);
    var lo, hi := ph.Start() / 4096, End(ph) / 4096;
    assert ph.Start() == 4096 * lo && End(ph) == 4096 * hi;
    forall v
      ensures v in vs <==> lo <= v < hi
    {
    }
    SlotsOfRange(lo, hi, vs);
  }

  lemma SlotsOfRange(lo: int, hi: int, vs: set<int>)
    requires 0x4_0000 <= lo <= hi <= 0xF_0000 && forall v :: v in vs <==> lo <= v < hi
    ensures Slots(4096 * lo, 4096 * hi) == set v | v in vs :: v / 1024
  {
    hide Slots;
    var ds := set v | v in vs :: v / 1024;
    forall d | 256 <= d < 960
      ensures d in Slots(4096 * lo, 4096 * hi) <==> d in ds
    {
      var v := SlotRange(lo, hi, d);
      if d in Slots(4096 * lo, 4096 * hi) {
        assert v in vs;
      }
    }
    forall d | d in ds
      ensures 256 <= d < 960
    {
      var v :| v in vs && v / 1024 == d;
      SlotNumber(v);
    }
  }

  lemma SlotNumber(v: int)
    requires 0x4_0000 <= v < 0xF_0000
    ensures 256 <= v / 1024 < 960
  {
  }

  lemma SlotRange(lo: int, hi: int, d: int) returns (v: int)
    requires 0x4_0000 <= lo <= hi <= 0xF_0000 && 256 <= d < 960
    ensures d in Slots(4096 * lo, 4096 * hi) ==> lo <= v < hi && v / 1024 == d
    ensures d !in Slots(4096 * lo, 4096 * hi) ==> forall x :: lo <= x < hi ==> x / 1024 != d
  {
    SlotOfPage(lo);
    v := Max(lo, 1024 * d);
  }

  lemma SlotOfPage(lo: int)
    ensures 4096 * lo / 0x40_0000 == lo / 1024
  {
  }

  // The price the loader is known by is the price of the image.
  lemma {:induction false} NeedsAre(s: Machine, p: int, exe: int, dll: int, a: int, n: nat)
    requires UserPid(p) && GoodImage(s, exe, dll, a, n)
    requires SegmentsOk(Headers(s.mem, a, n), exe) && PageDisjoint(Headers(s.mem, a, n))
    ensures ElfNeeds(s.mem, p, Headers(s.mem, a, n)) == ImageNeeds(s.mem, p, a, n)
  {
    hide Headers, SegmentOk, RoundDown, RoundUp, GoodSegment, Apart, KernelByte, Mapped, InSegments, Absent, Pages;
    hide SlotsOf, ImagePages, PageDisjoint;
    var phs := Headers(s.mem, a, n);
    PagesOfImage(s, p, exe, dll, a, n);
    PagesCounted(phs, exe);
    SlotsCounted(phs, exe);
    assert InSegments(phs, VM_DYNLINK) <==> 0xE_0000 in PagesOf(phs);
  }

  /* ----- the theorem ----- */

  // Every byte of every segment, read-only or writable as its header says; the linkage page on top of it.
  ghost predicate SegmentsRead(m: Mem, m': Mem, p: int, exe: int, a: int, n: int)
    requires Pid(p) && 0 <= a && a + 32 * n <= MEM_SIZE && 0 <= exe
  {
    forall k, i :: 0 <= k < n && Word(m, At(a, k)) == 1 && 0 <= i < Word(m, At(a, k) + 20) ==>
      SegmentReads(m, m', p, exe, At(a, k), i)
  }

  predicate SegmentReads(m: Mem, m': Mem, p: int, exe: int, h: int, i: int)
    requires Pid(p) && 0 <= h && h + 32 <= MEM_SIZE && 0 <= exe && 0 <= i
  {
    var w := Word(m, h + 8) + i;
    && w < 0xF000_0000
    && Mmu(m', p, w) == Hit(Phys(m', p, w), Word(m, h + 24) / 2 % 2 == 1, true, false)
    && (!(0xE000_0000 <= w < 0xE000_1000) ==>
         if i < Word(m, h + 16) then
           exe + Word(m, h + 4) + i < MEM_SIZE && m'[Phys(m', p, w)] == m[exe + Word(m, h + 4) + i]
         else m'[Phys(m', p, w)] == 0)
  }

  // The linkage page: its bytes, and read-write when nothing was mapped there and no segment lies there.
  ghost predicate LinkageReads(m: Mem, m': Mem, p: int, dll: int, vs: set<int>)
    requires Pid(p) && 0 <= dll && dll + 4096 <= MEM_SIZE
  {
    forall w: u32 :: 0xE000_0000 <= w < 0xE000_1000 ==>
      && Mapped(m', p, w) && m'[Phys(m', p, w)] == m[dll + (w - 0xE000_0000)]
      && (!Mapped(m, p, w) && 0xE_0000 !in vs ==> Mmu(m', p, w) == Hit(Phys(m', p, w), true, true, false))
  }

  // Everything else that user processes see is as it was.
  ghost predicate ElsewhereReads(m: Mem, m': Mem, p: int, vs: set<int>)
    requires Pid(p)
  {
    forall q, w: u32 :: UserPid(q) && UserVa(w) && !(q == p && (w / 4096 in vs || w / 4096 == 0xE_0000)) ==>
      && Lookup(m', q, w) == Lookup(m, q, w)
      && (Mapped(m, q, w) ==> m'[Phys(m', q, w)] == m[Phys(m, q, w)])
  }

  // elf_load on the bytes: the number of headers is the 16-bit number at exe + 44, and they start at the
  // offset in the word at exe + 28.
  lemma {:induction false} ElfBytes(s: Machine, p: int, exe: u32, dll: u32)
    requires Inv(s) && UserPid(p) && PmmOk(s.pool.pmm) && exe + 52 <= MEM_SIZE
    requires var a, n := exe + Word(s.mem, exe + 28), s.mem[exe + 44] as int + 0x100 * s.mem[exe + 45] as int;
      GoodImage(s, exe, dll, a, n) && ImageNeeds(s.mem, p, a, n) <= |FreePages(s.pool.pmm)|
    ensures Runnable(s, p, exe, dll)
    ensures var a, n := exe + Word(s.mem, exe + 28), s.mem[exe + 44] as int + 0x100 * s.mem[exe + 45] as int;
      var s' := ElfRun(s, p, exe, dll);
      && Inv(s') && Took(s.pool, s'.pool, p, ImageNeeds(s.mem, p, a, n))
      && SegmentsRead(s.mem, s'.mem, p, exe, a, n)
      && LinkageReads(s.mem, s'.mem, p, dll, ImagePages(s.mem, a, n))
      && ElsewhereReads(s.mem, s'.mem, p, ImagePages(s.mem, a, n))
  {
    hide Inv, PmmOk, GoodSegment, Apart, Headers, KernelByte, SegmentOk, PageDisjoint, FilesSafe, ElfNeeds, ImageNeeds;
    hide FreePages, Took, SegmentsRead, LinkageReads, ElsewhereReads, ImageLoaded, LinkPage, LinkFlags, Untouched;
    hide Readable, ElfLoad, ElfRun, ImagePages, LoadHeaders, Word, InMemory, Placed;
    var a, n := exe + Word(s.mem, exe + 28), s.mem[exe + 44] as int + 0x100 * s.mem[exe + 45] as int;
    var phs := Headers(s.mem, a, n);
    ImageIsOk(s, p, exe, dll, a, n);
    NeedsAre(s, p, exe, dll, a, n);
    ElfLoadIs(s, p, exe, dll);
    ElfLoadCorrect(s, p, exe, phs, dll);
    PagesOfImage(s, p, exe, dll, a, n);
    var s' := ElfRun(s, p, exe, dll);
    ReadSegments(s.mem, s'.mem, p, exe, a, n);
    ReadLinkage(s.mem, s'.mem, p, dll, phs);
    ReadElsewhere(s, s', p, exe, phs);
  }

  lemma {:induction false} ReadSegments(m: Mem, m': Mem, p: int, exe: int, a: int, n: nat)
    requires Pid(p) && 0 <= exe && 0 <= a && a + 32 * n <= MEM_SIZE && SegmentsOk(Headers(m, a, n), exe)
    requires forall k :: 0 <= k < |Headers(m, a, n)| && Headers(m, a, n)[k].Load() ==>
      ImageLoaded(m, m', p, exe, Headers(m, a, n)[k])
    ensures SegmentsRead(m, m', p, exe, a, n)
  {
    hide Headers, HeaderAt, SegmentOk, Mmu, Phys, Word, SegmentReads;
    forall k, i | 0 <= k < n && Word(m, At(a, k)) == 1 && 0 <= i < Word(m, At(a, k) + 20)
      ensures SegmentReads(m, m', p, exe, At(a, k), i)
    {
      HeaderK(m, a, n, k);
      HeaderWords(m, At(a, k));
      assert Headers(m, a, n)[k].Load();
      ReadSegment(m, m', p, exe, At(a, k), i);
    }
  }

  lemma ReadSegment(m: Mem, m': Mem, p: int, exe: int, h: int, i: int)
    requires Pid(p) && 0 <= exe && 0 <= h && h + 32 <= MEM_SIZE && SegmentOk(HeaderAt(m, h), exe)
    requires ImageLoaded(m, m', p, exe, HeaderAt(m, h)) && 0 <= i < Word(m, h + 20)
    ensures SegmentReads(m, m', p, exe, h, i)
  {
    HeaderWords(m, h);
    hide HeaderAt, Mmu, Phys, Word, Placed;
    var w: u32 := Word(m, h + 8) + i;
    assert Image(m, m', p, exe, HeaderAt(m, h), w);
  }

  lemma {:induction false} ReadLinkage(m: Mem, m': Mem, p: int, dll: u32, phs: seq<Phdr>)
    requires UserPid(p) && dll + DLL_SIZE <= VM_USERLO && LinkPage(m, m', p, dll) && LinkFlags(m, m', p, phs)
    ensures LinkageReads(m, m', p, dll, PagesOf(phs))
  {
    hide Mmu, Mapped, Phys, InSegments;
    forall w: u32 | 0xE000_0000 <= w < 0xE000_1000
      ensures Mapped(m', p, w) && m'[Phys(m', p, w)] == m[dll + (w - 0xE000_0000)]
      ensures !Mapped(m, p, w) && 0xE_0000 !in PagesOf(phs) ==> Mmu(m', p, w) == Hit(Phys(m', p, w), true, true, false)
    {
      assert Linked(w);
      SamePageIn(phs, 0xE_0000, w);
    }
  }

  // Segments consist of whole pages.
  lemma {:induction false} SamePageIn(phs: seq<Phdr>, v: int, w: u32)
    requires 4096 * v <= w < 4096 * v + 4096
    ensures InSegments(phs, w) <==> InSegments(phs, 4096 * v)
    decreases |phs|
  {
    hide RoundDown, RoundUp;
    if phs != [] {
      SamePageIn(phs[1..], v, w);
      PageBounds(phs[0]);
      NextPage(4096 * v, End(phs[0]));
      NextPage(4096 * v, phs[0].Start());
    }
  }

  lemma {:induction false} ReadElsewhere(s: Machine, s': Machine, p: int, exe: int, phs: seq<Phdr>)
    requires UserPid(p) && Untouched(s, s', p, phs)
    ensures ElsewhereReads(s.mem, s'.mem, p, PagesOf(phs))
  {
    hide Lookup, Phys, InSegments;
    forall q, w: u32 | UserPid(q) && UserVa(w) && !(q == p && (w / 4096 in PagesOf(phs) || w / 4096 == 0xE_0000))
      ensures Lookup(s'.mem, q, w) == Lookup(s.mem, q, w)
      ensures Mapped(s.mem, q, w) ==> s'.mem[Phys(s'.mem, q, w)] == s.mem[Phys(s.mem, q, w)]
    {
      SamePageIn(phs, w / 4096, w);
      assert !(q == p && (InSegments(phs, w) || Linked(w)));
    }
  }
}
