// kern/vmm/MPTIntro and kern/vmm/MPTOp on memory values: page-directory and page-table words, the
// translation they encode, and what each single update does to all the entries of all processes.
module PageTables {
  import opened Words

  const NUM_IDS := 64
  const MAGIC_NUMBER := 1048577

  const PTE_P := 0x001
  const PTE_W := 0x002
  const PTE_U := 0x004
  const PTE_G := 0x100

  // Where the linker puts PDirPool[64][1024] and IDPTbl[1024][1024]: page aligned, disjoint, above the
  // start of the kernel image at 1 MB (kern/Makefile.inc:23), below VM_USERLO, and otherwise arbitrary.
  datatype Layout = Layout(pdir: int, idp: int)

  predicate ValidLayout(l: Layout) {
    && 0x10_0000 <= l.pdir && l.pdir % 4096 == 0 && l.pdir + 0x4_0000 <= VM_USERLO
    && 0x10_0000 <= l.idp && l.idp % 4096 == 0 && l.idp + 0x40_0000 <= VM_USERLO
    && (l.pdir + 0x4_0000 <= l.idp || l.idp + 0x40_0000 <= l.pdir)
  }

  type StaticLayout = l: Layout | ValidLayout(l) witness Layout(0x10_0000, 0x14_0000)
  const LAYOUT: StaticLayout

  predicate Pid(p: int) { 0 <= p < 64 }
  predicate UserPid(p: int) { 1 <= p < 64 }
  predicate Idx(i: int) { 0 <= i < 1024 }
  predicate UserPde(d: int) { 256 <= d < 960 }
  predicate UserVa(va: int) { VM_USERLO <= va < VM_USERHI }

  // A virtual address is directory index, table index and offset.
  function PdeIdx(va: u32): int { va / 0x40_0000 }
  function PteIdx(va: u32): int { va / 4096 % 1024 }

  lemma AddressParts(va: u32)
    ensures Idx(PdeIdx(va)) && Idx(PteIdx(va))
    ensures va == PdeIdx(va) * 0x40_0000 + PteIdx(va) * 4096 + va % 4096
    ensures UserPde(PdeIdx(va)) <==> UserVa(va)
  {
  }

  lemma SamePage(va: u32, vb: u32)
    ensures PdeIdx(va) == PdeIdx(vb) && PteIdx(va) == PteIdx(vb) <==> va / 4096 == vb / 4096
  {
    AddressParts(va);
    AddressParts(vb);
  }

  /* ----- entries ----- */

  function PdeAddr(p: int, d: int): int { LAYOUT.pdir + 4096 * p + 4 * d }
  function IdAddr(d: int, t: int): int { LAYOUT.idp + 4096 * d + 4 * t }

  // Slot t of the second-level table in frame f.
  function TableWord(m: Mem, f: int, t: int): u32
    requires 0 <= f < 0x10_0000 && Idx(t)
  { Word(m, 4096 * f + 4 * t) }

  predicate Present(e: u32) { e % 2 == 1 }

  // (page_index << 12) | perm, for perm < 4096
  function Entry(page: int, perm: int): u32
    requires 0 <= perm < 4096
  { page % 0x10_0000 * 4096 + perm }

  // (pde_index << 22) + (pte_index << 12) | perm, with PTE_G on the kernel half
  function IdEntry(d: int, t: int): u32
    requires Idx(d) && Idx(t)
  { d * 0x40_0000 + t * 4096 + if UserPde(d) then PTE_P + PTE_W else PTE_P + PTE_W + PTE_G }

  function Pde(m: Mem, p: int, d: int): u32
    requires Pid(p) && Idx(d)
  { Word(m, PdeAddr(p, d)) }

  function Pte(m: Mem, p: int, d: int, t: int): u32
    requires Pid(p) && Idx(d) && Idx(t)
  {
    if Present(Pde(m, p, d)) then TableWord(m, Pde(m, p, d) / 4096, t) else 0
  }

  function IdPte(m: Mem, d: int, t: int): u32
    requires Idx(d) && Idx(t)
  { Word(m, IdAddr(d, t)) }

  function SetPde(m: Mem, p: int, d: int, e: u32): Mem
    requires Pid(p) && Idx(d)
  { PutWord(m, PdeAddr(p, d), e) }

  // No effect when there is no table.
  function SetPte(m: Mem, p: int, d: int, t: int, e: u32): Mem
    requires Pid(p) && Idx(d) && Idx(t)
  {
    if Present(Pde(m, p, d)) then PutWord(m, 4096 * (Pde(m, p, d) / 4096) + 4 * t, e) else m
  }

  // get_ptbl_entry_by_va: an entry that is not present reads as 0.
  function Lookup(m: Mem, p: int, va: u32): u32
    requires Pid(p)
  {
    var e := Pte(m, p, PdeIdx(va), PteIdx(va));
    if Present(e) then e else 0
  }

  predicate Mapped(m: Mem, q: int, va: u32)
    requires Pid(q)
  { Lookup(m, q, va) != 0 }

  /* ----- what the hardware does: Intel SDM volume 3A, section 4.3 ----- */

  datatype Translation = Miss | Hit(pa: int, writable: bool, user: bool, global: bool)

  function Mmu(m: Mem, p: int, va: u32): Translation
    requires Pid(p)
  {
    var pde := Pde(m, p, PdeIdx(va));
    if !Present(pde) then Miss else
    var pte := Word(m, pde / 4096 * 4096 + 4 * PteIdx(va));
    if !Present(pte) then Miss else
    Hit(pte / 4096 * 4096 + va % 4096,
           pde / 2 % 2 == 1 && pte / 2 % 2 == 1,
           pde / 4 % 2 == 1 && pte / 4 % 2 == 1,
           pte / 256 % 2 == 1)
  }

  /* ----- slots: every place where a live frame can be recorded ----- */

  datatype Slot = Table(p: int, d: int) | Leaf(p: int, d: int, t: int)

  predicate UserSlot(x: Slot) {
    UserPid(x.p) && UserPde(x.d) && (x.Leaf? ==> Idx(x.t))
  }

  function EntryOf(m: Mem, x: Slot): u32
    requires UserSlot(x)
  {
    match x
    case Table(p, d) => Pde(m, p, d)
    case Leaf(p, d, t) => Pte(m, p, d, t)
  }

  predicate Live(m: Mem, x: Slot) {
    UserSlot(x) && Present(EntryOf(m, x))
  }

  function FrameOf(m: Mem, x: Slot): int
    requires UserSlot(x)
  { EntryOf(m, x) / 4096 }

  /* ----- the invariant of the page structures ----- */

  // Kernel directory slots, and all of process 0, point at the static identity tables.
  ghost predicate KernelHalf(m: Mem) {
    && (forall p, d :: Pid(p) && Idx(d) && (p == 0 || !UserPde(d)) ==> Pde(m, p, d) == LAYOUT.idp + 4096 * d + 7)
    && (forall d, t :: Idx(d) && Idx(t) ==> IdPte(m, d, t) == IdEntry(d, t))
  }

  // A user directory slot is empty or has exactly PTE_P | PTE_W | PTE_U.
  ghost predicate UserDirs(m: Mem) {
    forall p, d :: UserPid(p) && UserPde(d) ==> Pde(m, p, d) == 0 || Pde(m, p, d) % 4096 == 7
  }

  ghost predicate InUserFrames(m: Mem) {
    forall x :: Live(m, x) ==> UserPage(FrameOf(m, x))
  }

  // No frame is recorded in two live slots, over all processes, tables and mappings alike.
  ghost predicate Separated(m: Mem) {
    forall x, y :: Live(m, x) && Live(m, y) && FrameOf(m, x) == FrameOf(m, y) ==> x == y
  }

  ghost predicate TablesOk(m: Mem) {
    KernelHalf(m) && UserDirs(m) && InUserFrames(m) && Separated(m)
  }

  ghost predicate Unused(m: Mem, f: int) {
    forall x :: Live(m, x) ==> FrameOf(m, x) != f
  }

  /* ----- how one memory update changes the entries of all slots ----- */

  // A byte that the translation of some process depends on.
  predicate StaticByte(a: int) {
    LAYOUT.pdir <= a < LAYOUT.pdir + 0x4_0000 || LAYOUT.idp <= a < LAYOUT.idp + 0x40_0000
  }

  ghost predicate TableByte(m: Mem, a: int) {
    StaticByte(a) || exists p, d :: Live(m, Table(p, d)) && FrameOf(m, Table(p, d)) == a / 4096
  }

  ghost predicate SameEntries(m: Mem, m': Mem) {
    forall x :: UserSlot(x) ==> EntryOf(m', x) == EntryOf(m, x)
  }

  lemma WordKept(m: Mem, m': Mem, a: int)
    requires 0 <= a <= 0xFFFF_FFFC
    requires forall b :: a <= b < a + 4 ==> m'[b] == m[b]
    ensures Word(m', a) == Word(m, a)
  {
  }

  // All words of the static tables are kept.
  ghost predicate SameStatic(m: Mem, m': Mem) {
    && (forall p, d :: Pid(p) && Idx(d) ==> Pde(m', p, d) == Pde(m, p, d))
    && (forall d, t :: Idx(d) && Idx(t) ==> IdPte(m', d, t) == IdPte(m, d, t))
  }

  lemma StaticKept(m: Mem, m': Mem)
    requires forall a :: 0 <= a < MEM_SIZE && StaticByte(a) ==> m'[a] == m[a]
    ensures SameStatic(m, m')
  {
    hide Word;
    forall p, d | Pid(p) && Idx(d)
      ensures Pde(m', p, d) == Pde(m, p, d)
    {
      WordKept(m, m', PdeAddr(p, d));
    }
    forall d, t | Idx(d) && Idx(t)
      ensures IdPte(m', d, t) == IdPte(m, d, t)
    {
      WordKept(m, m', IdAddr(d, t));
    }
  }

  lemma SameEntriesKeepTables(m: Mem, m': Mem)
    requires TablesOk(m) && SameEntries(m, m') && SameStatic(m, m')
    ensures TablesOk(m')
  {
    assert forall x :: UserSlot(x) ==> Live(m', x) == Live(m, x) && FrameOf(m', x) == FrameOf(m, x);
    forall p, d | UserPid(p) && UserPde(d)
      ensures Pde(m', p, d) == 0 || Pde(m', p, d) % 4096 == 7
    {
      assert Pde(m', p, d) == Pde(m, p, d);
    }
  }

  // Memory changes outside the tables leave every translation alone.
  lemma DataWrite(m: Mem, m': Mem)
    requires TablesOk(m)
    requires forall a :: 0 <= a < MEM_SIZE && TableByte(m, a) ==> m'[a] == m[a]
    ensures TablesOk(m') && SameEntries(m, m') && SameStatic(m, m')
  {
    hide Word, PutWord, FillBytes, PdeAddr, IdAddr;
    StaticKept(m, m');
    forall x | UserSlot(x)
      ensures EntryOf(m', x) == EntryOf(m, x)
    {
      assert Pde(m', x.p, x.d) == Pde(m, x.p, x.d);
      if x.Leaf? && Present(Pde(m, x.p, x.d)) {
        LeafKept(m, m', x.p, x.d, x.t);
      }
    }
    SameEntriesKeepTables(m, m');
  }

  lemma InTable(m: Mem, p: int, d: int, b: int)
    requires Live(m, Table(p, d)) && 4096 * FrameOf(m, Table(p, d)) <= b < 4096 * FrameOf(m, Table(p, d)) + 4096
    ensures TableByte(m, b)
  {
    hide Word, EntryOf, Present;
    PageSplit(FrameOf(m, Table(p, d)), b - 4096 * FrameOf(m, Table(p, d)));
  }

  lemma LeafKept(m: Mem, m': Mem, p: int, d: int, t: int)
    requires Live(m, Table(p, d)) && Idx(t)
    requires forall a :: 0 <= a < MEM_SIZE && TableByte(m, a) ==> m'[a] == m[a]
    ensures TableWord(m', FrameOf(m, Table(p, d)), t) == TableWord(m, FrameOf(m, Table(p, d)), t)
  {
    hide Word, EntryOf, Present, TableByte;
    var a := 4096 * FrameOf(m, Table(p, d)) + 4 * t;
    InTable(m, p, d, a);
    InTable(m, p, d, a + 1);
    InTable(m, p, d, a + 2);
    InTable(m, p, d, a + 3);
    WordKept(m, m', a);
  }

  /* ----- single-entry updates ----- */

  // At most x0 got a new live entry, naming a frame that no other live slot names.
  lemma SlotUpdate(m: Mem, m': Mem, x0: Slot)
    requires TablesOk(m) && KernelHalf(m') && UserDirs(m') && UserSlot(x0)
    requires forall x :: x != x0 && Live(m', x) ==> Live(m, x) && EntryOf(m', x) == EntryOf(m, x)
    requires Live(m', x0) ==> UserPage(FrameOf(m', x0))
    requires Live(m', x0) ==> forall y :: y != x0 && Live(m, y) ==> FrameOf(m, y) != FrameOf(m', x0)
    ensures TablesOk(m')
  {
  }

  lemma StaticInv(m: Mem, m': Mem)
    requires KernelHalf(m) && UserDirs(m) && SameStatic(m, m')
    ensures KernelHalf(m') && UserDirs(m')
  {
    hide Pde, IdPte;
  }

  predicate OnlySlot(m: Mem, m': Mem, x0: Slot, e: u32, x: Slot)
    requires UserSlot(x)
  {
    EntryOf(m', x) == if x == x0 then e else EntryOf(m, x)
  }

  // Writing one slot of a user frame keeps the static tables and every other slot of every frame.
  lemma TableWrite(m: Mem, f: int, t: int, e: u32)
    requires UserPage(f) && Idx(t)
    ensures SameStatic(m, PutWord(m, 4096 * f + 4 * t, e))
    ensures forall g, k :: UserPage(g) && Idx(k) ==>
        TableWord(PutWord(m, 4096 * f + 4 * t, e), g, k) == if (g, k) == (f, t) then e else TableWord(m, g, k)
  {
    hide PutWord, Word;
    PutWordEffect(m, 4096 * f + 4 * t, e);
    StaticKept(m, PutWord(m, 4096 * f + 4 * t, e));
  }

  // Writing slot t of a live user table changes that one entry and nothing else anywhere.
  lemma SetPteView(m: Mem, p: int, d: int, t: int, e: u32)
    requires TablesOk(m) && Live(m, Table(p, d)) && Idx(t)
    ensures SameStatic(m, SetPte(m, p, d, t, e))
    ensures forall x :: UserSlot(x) ==> OnlySlot(m, SetPte(m, p, d, t, e), Leaf(p, d, t), e, x)
  {
    hide Word, PutWord, FillBytes, PdeAddr, IdAddr;
    var m' := SetPte(m, p, d, t, e);
    var f := FrameOf(m, Table(p, d));
    TableWrite(m, f, t, e);
    forall x | UserSlot(x)
      ensures OnlySlot(m, m', Leaf(p, d, t), e, x)
    {
      assert Pde(m', x.p, x.d) == Pde(m, x.p, x.d);
      if x.Leaf? && Present(Pde(m, x.p, x.d)) {
        assert Live(m, Table(x.p, x.d)) && UserPage(FrameOf(m, Table(x.p, x.d)));
        assert FrameOf(m, Table(x.p, x.d)) == f ==> Table(x.p, x.d) == Table(p, d);
      }
    }
  }

  // A directory write changes that directory word and no slot of any user frame.
  lemma PdeWrite(m: Mem, p: int, d: int, e: u32)
    requires Pid(p) && Idx(d)
    ensures forall q, c :: Pid(q) && Idx(c) ==>
      Pde(SetPde(m, p, d, e), q, c) == if (q, c) == (p, d) then e else Pde(m, q, c)
    ensures forall c, t :: Idx(c) && Idx(t) ==> IdPte(SetPde(m, p, d, e), c, t) == IdPte(m, c, t)
    ensures forall g, t :: UserPage(g) && Idx(t) ==> TableWord(SetPde(m, p, d, e), g, t) == TableWord(m, g, t)
  {
    hide PutWord, Word;
    PutWordEffect(m, PdeAddr(p, d), e);
  }

  // Emptying a directory slot drops the slot and all 1024 mappings behind it, nothing else.
  lemma RemovePdeView(m: Mem, p: int, d: int)
    requires TablesOk(m) && UserPid(p) && UserPde(d)
    ensures TablesOk(SetPde(m, p, d, 0))
    ensures forall x :: UserSlot(x) ==>
      EntryOf(SetPde(m, p, d, 0), x) == if (x.p, x.d) == (p, d) then 0 else EntryOf(m, x)
  {
    hide Word, PutWord, FillBytes, PdeAddr, IdAddr;
    var m' := SetPde(m, p, d, 0);
    PdeWrite(m, p, d, 0);
    forall x | UserSlot(x)
      ensures EntryOf(m', x) == if (x.p, x.d) == (p, d) then 0 else EntryOf(m, x)
    {
      if x.Leaf? && (x.p, x.d) != (p, d) && Present(Pde(m, x.p, x.d)) {
        assert Live(m, Table(x.p, x.d)) && UserPage(FrameOf(m, Table(x.p, x.d)));
      }
    }
    SlotUpdate(m, m', Table(p, d));
  }

  // alloc_ptbl's two writes: point the directory slot at frame f and zero all 1024 slots of f.
  function InstallTable(m: Mem, p: int, d: int, f: int): Mem
    requires Pid(p) && Idx(d) && UserPage(f)
  { FillBytes(SetPde(m, p, d, Entry(f, 7)), 4096 * f, 0, 4096) }

  // Zeroing a user frame keeps the static tables and every slot of every other frame.
  lemma ZeroFrame(m: Mem, f: int)
    requires UserPage(f)
    ensures SameStatic(m, FillBytes(m, 4096 * f, 0, 4096))
    ensures forall g, k :: UserPage(g) && Idx(k) ==>
        TableWord(FillBytes(m, 4096 * f, 0, 4096), g, k) == if g == f then 0 else TableWord(m, g, k)
  {
    FillBytesEffect(m, 4096 * f, 0, 4096);
    ZeroFillWords(m, 4096 * f, 4096);
    StaticKept(m, FillBytes(m, 4096 * f, 0, 4096));
  }

  function NewTableEntry(m: Mem, p: int, d: int, f: int, x: Slot): u32
    requires UserSlot(x)
  {
    if x == Table(p, d) then Entry(f, 7) else if (x.p, x.d) == (p, d) then 0 else EntryOf(m, x)
  }

  // A new table exposes no stale entry: every one of its mappings is empty.
  lemma NewTableView(m: Mem, m': Mem, p: int, d: int, f: int)
    requires TablesOk(m) && UserPid(p) && UserPde(d) && UserPage(f) && Unused(m, f)
    requires forall q, c :: Pid(q) && Idx(c) ==> Pde(m', q, c) == if (q, c) == (p, d) then Entry(f, 7) else Pde(m, q, c)
    requires forall c, t :: Idx(c) && Idx(t) ==> IdPte(m', c, t) == IdPte(m, c, t)
    requires forall g, t :: UserPage(g) && Idx(t) ==> TableWord(m', g, t) == if g == f then 0 else TableWord(m, g, t)
    ensures TablesOk(m')
    ensures forall x :: UserSlot(x) ==> EntryOf(m', x) == NewTableEntry(m, p, d, f, x)
  {
    hide Word, PdeAddr, IdAddr;
    forall x | UserSlot(x)
      ensures EntryOf(m', x) == NewTableEntry(m, p, d, f, x)
    {
      if x.Leaf? && (x.p, x.d) != (p, d) && Present(Pde(m, x.p, x.d)) {
        assert Live(m, Table(x.p, x.d)) && FrameOf(m, Table(x.p, x.d)) != f;
        assert UserPage(FrameOf(m, Table(x.p, x.d)));
      }
    }
    SlotUpdate(m, m', Table(p, d));
  }

  lemma InstallTableView(m: Mem, p: int, d: int, f: int)
    requires TablesOk(m) && UserPid(p) && UserPde(d) && UserPage(f) && Unused(m, f)
    ensures TablesOk(InstallTable(m, p, d, f))
    ensures forall x :: UserSlot(x) ==> EntryOf(InstallTable(m, p, d, f), x) == NewTableEntry(m, p, d, f, x)
  {
    hide Word, PutWord, FillBytes, PdeAddr, IdAddr;
    PdeWrite(m, p, d, Entry(f, 7));
    ZeroFrame(SetPde(m, p, d, Entry(f, 7)), f);
    NewTableView(m, InstallTable(m, p, d, f), p, d, f);
  }

  /* ----- translation ----- */

  lemma IdTable(d: int, t: int)
    requires Idx(d) && Idx(t)
    ensures 4096 * ((LAYOUT.idp + 4096 * d + 7) / 4096) + 4 * t == IdAddr(d, t)
    ensures (LAYOUT.idp + 4096 * d + 7) % 4096 == 7
  {
    PageSplit(LAYOUT.idp / 4096 + d, 7);
  }

  // The flag bits of an entry are the flag bits of its low 12 bits.
  lemma FlagBits(e: u32, q: int, low: int)
    requires e == 4096 * q + low && 0 <= low < 4096
    ensures e / 4096 == q && e % 4096 == low && e % 2 == low % 2
    ensures e / 2 % 2 == low / 2 % 2 && e / 4 % 2 == low / 4 % 2 && e / 256 % 2 == low / 256 % 2
  {
    PageSplit(q, low);
    BitSplit(2048 * q + low / 2, low % 2);
    BitSplit(1024 * q + low / 2 / 2, low / 2 % 2);
    BitSplit(512 * q + low / 2 / 2 / 2, low / 2 / 2 % 2);
    ByteSplit(e, 16 * q + low / 256, low % 256);
    BitSplit(8 * q + low / 256 / 2, low / 256 % 2);
    assert e / 4 == e / 2 / 2 && low / 4 == low / 2 / 2;
  }

  lemma BitsOf(d: int, t: int)
    requires Idx(d) && Idx(t)
    ensures IdEntry(d, t) / 4096 * 4096 == d * 0x40_0000 + t * 4096
    ensures Present(IdEntry(d, t)) && IdEntry(d, t) / 2 % 2 == 1 && IdEntry(d, t) / 4 % 2 == 0
    ensures IdEntry(d, t) / 256 % 2 == if UserPde(d) then 0 else 1
  {
    FlagBits(IdEntry(d, t), 1024 * d + t, if UserPde(d) then 3 else 259);
  }

  // Process 0 everywhere, and every process on kernel addresses, translates an address to itself:
  // writable, for the supervisor only, and global exactly in the kernel range.
  lemma KernelIdentity(m: Mem, p: int, va: u32)
    requires KernelHalf(m) && Pid(p) && (p == 0 || !UserVa(va))
    ensures Mmu(m, p, va) == Hit(va, true, false, !UserVa(va))
  {
    var d, t := PdeIdx(va), PteIdx(va);
    AddressParts(va);
    assert Pde(m, p, d) == LAYOUT.idp + 4096 * d + 7;
    assert IdPte(m, d, t) == IdEntry(d, t);
    IdTable(d, t);
    BitsOf(d, t);
    BitsOfPde(Pde(m, p, d));
    hide Word, PdeIdx, PteIdx, IdEntry;
  }

  lemma BitsOfPde(e: u32)
    requires e % 4096 == 7
    ensures Present(e) && e / 2 % 2 == 1 && e / 4 % 2 == 1
  {
    FlagBits(e, e / 4096, 7);
  }

  // For a user address the hardware follows the two entries; the directory never restricts.
  lemma UserTranslation(m: Mem, p: int, va: u32)
    requires UserDirs(m) && UserPid(p) && UserVa(va)
    ensures Mmu(m, p, va) == var e := Lookup(m, p, va);
      if e == 0 then Miss
      else Hit(e / 4096 * 4096 + va % 4096, e / 2 % 2 == 1, e / 4 % 2 == 1, e / 256 % 2 == 1)
  {
    AddressParts(va);
    var d := PdeIdx(va);
    assert Pde(m, p, d) == 0 || Pde(m, p, d) % 4096 == 7;
    if Present(Pde(m, p, d)) {
      BitsOfPde(Pde(m, p, d));
    }
    hide Word, PdeIdx, PteIdx, PdeAddr;
  }

  /* ----- which bytes an update touches ----- */

  lemma SetPteBytes(m: Mem, p: int, d: int, t: int, e: u32, a: int)
    requires Live(m, Table(p, d)) && Idx(t) && 0 <= a < MEM_SIZE && a / 4096 != FrameOf(m, Table(p, d))
    ensures SetPte(m, p, d, t, e)[a] == m[a]
  {
    hide PutWord, Word, Pde;
    var f := FrameOf(m, Table(p, d));
    PutWordEffect(m, 4096 * f + 4 * t, e);
    FrameRange(f, t);
  }

  lemma FrameRange(f: int, t: int)
    requires Idx(t)
    ensures forall a :: 4096 * f + 4 * t <= a < 4096 * f + 4 * t + 4 ==> a / 4096 == f
  {
  }

  lemma SetPdeBytes(m: Mem, p: int, d: int, e: u32, a: int)
    requires Pid(p) && Idx(d) && 0 <= a < MEM_SIZE && !StaticByte(a)
    ensures SetPde(m, p, d, e)[a] == m[a]
  {
  }

  lemma InstallBytes(m: Mem, p: int, d: int, f: int, a: int)
    requires Pid(p) && Idx(d) && UserPage(f) && 0 <= a < MEM_SIZE && !StaticByte(a) && a / 4096 != f
    ensures InstallTable(m, p, d, f)[a] == m[a]
  {
    SetPdeBytes(m, p, d, Entry(f, 7), a);
    FillBytesEffect(SetPde(m, p, d, Entry(f, 7)), 4096 * f, 0, 4096);
    hide FillBytes, SetPde;
  }
}
