// kern/pmm/MATIntro, MATOp and MATInit: the allocation table, its initialisation from the firmware
// rows, and the circular first-fit page allocator.
module PageAllocator {
  import opened Words
  import opened FirmwareMap

  const AT_SIZE := 0x10_0000
  const USERLO_PI := 0x4_0000
  const USERHI_PI := 0xF_0000

  datatype PageInfo = PageInfo(perm: u32, inUse: u32)
  type AllocTable = t: seq<PageInfo> | |t| == AT_SIZE ghost witness seq(AT_SIZE, _ => PageInfo(0, 0))

  datatype Pmm = Pmm(nps: u32, at: AllocTable, cursor: int)

  predicate Normal(s: Pmm, i: int) requires Page(i) { s.at[i].perm > 1 }
  predicate Allocated(s: Pmm, i: int) requires Page(i) { s.at[i].inUse > 0 }
  predicate Free(s: Pmm, i: int) requires Page(i) { Normal(s, i) && !Allocated(s, i) }

  // Normal pages are user pages that exist; only normal pages are ever allocated; the cursor is a user page.
  ghost predicate PmmOk(s: Pmm) {
    && UserPage(s.cursor)
    && (forall i :: Page(i) && Normal(s, i) ==> UserPage(i) && i < s.nps)
    && (forall i :: Page(i) && Allocated(s, i) ==> Normal(s, i))
  }

  function SetAllocated(s: Pmm, i: int, v: u32): Pmm
    requires Page(i)
  { s.(at := s.at[i := s.at[i].(inUse := v)]) }

  /* ----- palloc ----- */

  function Next(i: int): int {
    if i + 1 >= 0xF_0000 then 0x4_0000 else i + 1
  }

  // Steps of the circular scan from i to j.
  function Ahead(i: int, j: int): int {
    if j >= i then j - i else j - i + 0xB_0000
  }

  // Pages still to be looked at when the scan that started at last stands at i.
  function Remaining(i: int, last: int): int {
    if last > i then last - i else last - i + 0xB_0000
  }

  // The page the scan stops at, 0 for none.
  function Scan(s: Pmm, i: int, last: int): (r: int)
    requires UserPage(i) && UserPage(last)
    ensures r == 0 || UserPage(r)
    decreases Remaining(i, last)
  {
    if Free(s, i) then i else if Next(i) == last then 0 else Scan(s, Next(i), last)
  }

  function Palloc(s: Pmm): (Pmm, int)
    requires UserPage(s.cursor)
  {
    var f := Scan(s, s.cursor, s.cursor);
    if f == 0 then (s.(cursor := 0x4_0000), 0) else (SetAllocated(s, f, 1).(cursor := f), f)
  }

  lemma {:induction false} ScanFirst(s: Pmm, i: int, last: int)
    requires UserPage(i) && UserPage(last)
    ensures var f := Scan(s, i, last);
      && (f == 0 ==> forall j :: UserPage(j) && Ahead(i, j) < Remaining(i, last) ==> !Free(s, j))
      && (f != 0 ==> Free(s, f) && Ahead(i, f) < Remaining(i, last)
                     && forall j :: UserPage(j) && Ahead(i, j) < Ahead(i, f) ==> !Free(s, j))
    decreases Remaining(i, last)
  {
    var n := Next(i);
    if !Free(s, i) && n != last {
      ScanFirst(s, n, last);
      assert forall j :: UserPage(j) && j != i ==> Ahead(i, j) == Ahead(n, j) + 1;
    }
  }

  // palloc is circular first-fit: 0 exactly when there is no free normal page, and otherwise
  // the free page nearest after the cursor, which is marked and becomes the cursor; nothing else changes.
  lemma PallocFirstFit(s: Pmm)
    requires PmmOk(s)
    ensures var (s', f) := Palloc(s);
      && PmmOk(s')
      && (f == 0 <==> forall j :: Page(j) ==> !Free(s, j))
      && (f == 0 ==> s' == s.(cursor := 0x4_0000))
      && (f != 0 ==> UserPage(f) && Free(s, f)
                     && s' == Pmm(s.nps, s.at[f := PageInfo(s.at[f].perm, 1)], f))
      && (f != 0 ==> forall j :: UserPage(j) && Free(s, j) ==> Ahead(s.cursor, f) <= Ahead(s.cursor, j))
  {
    ScanFirst(s, s.cursor, s.cursor);
    assert forall j :: Page(j) && Free(s, j) ==> UserPage(j) && Ahead(s.cursor, j) < Remaining(s.cursor, s.cursor);
  }

  // Over two calls, whatever is freed or allocated elsewhere in the table between them: the second resumes
  // the circle at the page the first handed out.
  lemma PallocResumes(s: Pmm, t: Pmm)
    requires PmmOk(s) && PmmOk(t) && Palloc(s).1 != 0 && t.cursor == Palloc(s).0.cursor
    ensures var f, g := Palloc(s).1, Palloc(t).1;
      && (g == 0 <==> forall j :: UserPage(j) ==> !Free(t, j))
      && (g != 0 ==> UserPage(g) && Free(t, g))
      && (g != 0 ==> forall j :: UserPage(j) && Free(t, j) ==>
            (if g >= f then g - f else g - f + 0xB_0000) <= if j >= f then j - f else j - f + 0xB_0000)
  {
    PallocFirstFit(s);
    PallocFirstFit(t);
    hide Palloc;
  }

  lemma {:induction false} PallocNearest(s: Pmm, f: int)
    requires PmmOk(s) && UserPage(f) && Free(s, f)
    requires forall j :: UserPage(j) && Free(s, j) ==> Ahead(s.cursor, f) <= Ahead(s.cursor, j)
    ensures Palloc(s) == (Pmm(s.nps, s.at[f := PageInfo(s.at[f].perm, 1)], f), f)
  {
    hide Palloc;
    PallocFirstFit(s);
  }

  // Three free pages from the start of the range: the page freed in between is not taken before the circle
  // comes round.
  lemma {:induction false} FreedPageWaits(s: Pmm)
    requires PmmOk(s) && s.cursor == 0x4_0000
    requires forall i :: Page(i) ==> (Free(s, i) <==> 0x4_0000 <= i <= 0x4_0002)
    ensures var (s1, f) := Palloc(s); UserPage(s1.cursor) && f == 0x4_0000
    ensures var (s2, g) := Palloc(Palloc(s).0); UserPage(s2.cursor) && g == 0x4_0001
    ensures var s3 := SetAllocated(Palloc(Palloc(s).0).0, 0x4_0000, 0);
      UserPage(s3.cursor) && Free(s3, 0x4_0000) && Palloc(s3).1 == 0x4_0002
  {
    hide Palloc;
    PallocNearest(s, 0x4_0000);
    PallocFirstFit(s);
    var s1 := Palloc(s).0;
    assert forall i :: Page(i) ==> (Free(s1, i) <==> 0x4_0001 <= i <= 0x4_0002);
    PallocNearest(s1, 0x4_0001);
    PallocFirstFit(s1);
    var s2 := Palloc(s1).0;
    assert forall i :: Page(i) ==> (Free(s2, i) <==> i == 0x4_0002);
    var s3 := SetAllocated(s2, 0x4_0000, 0);
    assert forall i :: Page(i) ==> (Free(s3, i) <==> i == 0x4_0002 || i == 0x4_0000);
    PallocNearest(s3, 0x4_0002);
  }

  /* ----- pmem_init ----- */

  function MaxEnd(rs: seq<Range>): u32 {
    if rs == [] then 0 else var m := MaxEnd(rs[..|rs|-1]); if m < rs[|rs|-1].end then rs[|rs|-1].end else m
  }

  predicate HoldsPage(r: Range, i: int) {
    r.start <= i * 4096 && (i + 1) * 4096 <= r.end
  }

  // The first row from k on that contains the whole page; |rs| when there is none.
  function FirstRow(rs: seq<Range>, i: int, k: int): (n: int)
    requires 0 <= k <= |rs|
    ensures k <= n <= |rs|
    ensures n < |rs| ==> HoldsPage(rs[n], i)
    ensures forall j :: k <= j < n ==> !HoldsPage(rs[j], i)
    decreases |rs| - k
  {
    if k == |rs| || HoldsPage(rs[k], i) then k else FirstRow(rs, i, k + 1)
  }

  function PagePerm(rs: seq<Range>, i: int): u32 {
    if !UserPage(i) then 1
    else
      var n := FirstRow(rs, i, 0);
      if n < |rs| && rs[n].typ == MEM_RAM then 2 else 0
  }

  // The table pmem_init leaves, starting from zeroed storage.
  ghost predicate Initialised(s: Pmm, rs: seq<Range>) {
    && s.nps == MaxEnd(rs) / 4096 && s.cursor == 0x4_0000
    && forall i :: Page(i) ==> s.at[i] == if i < s.nps then PageInfo(PagePerm(rs, i), 0) else PageInfo(0, 0)
  }

  lemma {:induction false} MaxEndBound(rs: seq<Range>)
    ensures forall i :: 0 <= i < |rs| ==> rs[i].end <= MaxEnd(rs)
  {
    if rs != [] {
      MaxEndBound(rs[..|rs|-1]);
      assert forall i :: 0 <= i < |rs| - 1 ==> rs[..|rs|-1][i] == rs[i];
    }
  }

  // The page count comes from the largest row end, which is the end of some row.
  lemma {:induction false} MaxEndIs(rs: seq<Range>)
    ensures rs == [] ==> MaxEnd(rs) == 0
    ensures forall i :: 0 <= i < |rs| ==> rs[i].end <= MaxEnd(rs)
    ensures rs != [] ==> exists i :: 0 <= i < |rs| && rs[i].end == MaxEnd(rs)
  {
    MaxEndBound(rs);
    if rs != [] && MaxEnd(rs) != rs[|rs| - 1].end {
      MaxEndIs(rs[..|rs|-1]);
      if |rs| > 1 {
        var i :| 0 <= i < |rs| - 1 && rs[..|rs|-1][i].end == MaxEnd(rs[..|rs|-1]);
        assert rs[i].end == MaxEnd(rs);
      }
    }
  }

  // Page by page: unallocated; permission 1 for the kernel's pages, 2 for user pages whose first containing
  // row is RAM, 0 for other user pages; and nothing written beyond the page count.
  lemma {:induction false} PermExactly(s: Pmm, rs: seq<Range>, i: int)
    requires Initialised(s, rs) && Page(i)
    ensures s.at[i].inUse == 0 && s.nps == MaxEnd(rs) / 4096 && s.cursor == 0x4_0000
    ensures i >= s.nps ==> s.at[i].perm == 0
    ensures i < s.nps && (i < 0x4_0000 || 0xF_0000 <= i) ==> s.at[i].perm == 1
    ensures i < s.nps && 0x4_0000 <= i < 0xF_0000 ==>
      var n := FirstRow(rs, i, 0); s.at[i].perm == if n < |rs| && rs[n].typ == 1 then 2 else 0
  {
  }

  // Exactly which pages become allocatable: user pages whose first containing row is RAM.
  lemma {:induction false} NormalExactly(s: Pmm, rs: seq<Range>, i: int)
    requires Initialised(s, rs) && Page(i)
    ensures Normal(s, i) <==> UserPage(i) && FirstRow(rs, i, 0) < |rs| && rs[FirstRow(rs, i, 0)].typ == MEM_RAM
  {
    MaxEndBound(rs);
  }

  ghost predicate HasUsableRow(rs: seq<Range>, i: int) {
    exists k :: 0 <= k < |rs| && HoldsPage(rs[k], i) && rs[k].typ == MEM_RAM
  }

  // A row of another type that contains the page stands before every RAM row that does.
  ghost predicate Shadowed(rs: seq<Range>, i: int) {
    FirstRow(rs, i, 0) < |rs| && rs[FirstRow(rs, i, 0)].typ != MEM_RAM && HasUsableRow(rs, i)
  }

  // Two rows of different types contain the page.
  ghost predicate MixedPage(rs: seq<Range>, i: int) {
    exists j, k :: 0 <= j < |rs| && 0 <= k < |rs|
      && HoldsPage(rs[j], i) && HoldsPage(rs[k], i) && rs[j].typ != rs[k].typ
  }

  // "Allocatable means that some usable row contains the page" holds of a page exactly when no such row
  // shadows it; without overlapping rows of different types none does.
  lemma NormalIffUsable(s: Pmm, rs: seq<Range>, i: int)
    requires Initialised(s, rs) && Page(i)
    ensures (Normal(s, i) <==> UserPage(i) && HasUsableRow(rs, i)) <==> !(UserPage(i) && Shadowed(rs, i))
    ensures !MixedPage(rs, i) ==> !Shadowed(rs, i)
  {
    NormalExactly(s, rs, i);
  }

  lemma InitialisedOk(s: Pmm, rs: seq<Range>)
    requires Initialised(s, rs)
    ensures PmmOk(s)
  {
  }

  // From firmware to allocator: every byte of every page that can ever be handed out lies in a
  // firmware entry of type RAM.
  lemma NormalPagesAreRam(s: Pmm, es: seq<MmapEntry>, i: int, a: int)
    requires Initialised(s, Rows(es)) && Page(i) && Normal(s, i) && 4096 * i <= a < 4096 * i + 4096
    ensures InFirmware(es, MEM_RAM, a)
  {
    var rs := Rows(es);
    NormalExactly(s, rs, i);
    var n := FirstRow(rs, i, 0);
    assert rs[n].Holds(MEM_RAM, a);
    RowsExact(es);
  }

  // An entry of another type holds a byte of page i.
  ghost predicate Foreign(es: seq<MmapEntry>, i: int) {
    exists k, a :: 0 <= k < |es| && 4096 * i <= a < 4096 * i + 4096 && es[k].typ != MEM_RAM && es[k].Holds(es[k].typ, a)
  }

  // And back: a user page wholly inside one RAM entry, and met by no entry of another type, is handed out.
  lemma RamPagesAreNormal(s: Pmm, es: seq<MmapEntry>, i: int, k: int)
    requires Initialised(s, Rows(es)) && UserPage(i) && 0 <= k < |es| && es[k].typ == MEM_RAM && !Foreign(es, i)
    requires es[k].Base() <= 4096 * i && 4096 * i + 4096 <= es[k].Base() + es[k].Length()
    ensures Normal(s, i)
  {
    hide Collect, Merge;
    var rs := Rows(es);
    var j := CollectHas(es, k);
    ClampHolds(es[k], i);
    j := MergeContains(Collect(es), j);
    assert HoldsPage(rs[j], i);
    NormalExactly(s, rs, i);
    var n := FirstRow(rs, i, 0);
    if rs[n].typ != MEM_RAM {
      ForeignRow(es, i, n);
    }
  }

  lemma ForeignRow(es: seq<MmapEntry>, i: int, n: int)
    requires 0 <= i && 0 <= n < |Rows(es)| && HoldsPage(Rows(es)[n], i) && Rows(es)[n].typ != MEM_RAM
    ensures Foreign(es, i)
  {
    hide Collect, Merge;
    var rs, a := Rows(es), 4096 * i;
    assert rs[n].Holds(rs[n].typ, a);
    assert InRows(rs, rs[n].typ, a);
    RowsExact(es);
    assert InFirmware(es, rs[n].typ, a);
    var k :| 0 <= k < |es| && es[k].Holds(rs[n].typ, a);
    assert es[k].typ != MEM_RAM && es[k].Holds(es[k].typ, a);
  }

  lemma ClampHolds(e: MmapEntry, i: int)
    requires UserPage(i) && e.Base() <= 4096 * i && 4096 * i + 4096 <= e.Base() + e.Length()
    ensures Below4G(e) && Clamp(e).typ == e.typ && HoldsPage(Clamp(e), i)
  {
  }

  // A firmware map with which the first row wins: a RAM entry behind a reserved one yields no page.
  lemma {:induction false} RamBehindReserved(s: Pmm, i: int)
    requires Initialised(s, Rows([LowEntry(0, TOP, MEM_RESERVED), LowEntry(0, TOP, MEM_RAM)])) && UserPage(i)
    ensures var rs := Rows([LowEntry(0, TOP, MEM_RESERVED), LowEntry(0, TOP, MEM_RAM)]);
      HasUsableRow(rs, i) && Shadowed(rs, i) && !Normal(s, i)
  {
    hide Collect;
    CollectTwo(LowEntry(0, TOP, MEM_RESERVED), LowEntry(0, TOP, MEM_RAM));
    var rs := [Range(0, TOP, MEM_RESERVED), Range(0, TOP, MEM_RAM)];
    MergeTwo(rs[0], rs[1]);
    assert HoldsPage(rs[0], i) && HoldsPage(rs[1], i);
    NormalExactly(s, rs, i);
  }

  lemma {:induction false} MergeTwo(a: Range, b: Range)
    requires a.typ != b.typ
    ensures Merge([a, b]) == [a, b]
  {
    assert [a, b][1..] == [b];
  }

  lemma UnsignedSpan(start: u32, end: u32)
    requires start <= end
    ensures ToU32(start + ToU32(end - start)) == end
  {
  }

  /* ----- the layer as imperative code ----- */

  class AllocationTable {
    const pmap: Pmmap
    const at: array<PageInfo>
    var nps: u32
    var lastPallocIndex: int

    ghost function Repr(): set<object> { {this, at} + pmap.Repr() }

    ghost predicate Valid()
      reads this, at
    { at.Length == AT_SIZE && this !in pmap.Repr() && at !in pmap.Repr() }

    // The state of the static storage before initialisation.
    ghost predicate Zeroed()
      requires at.Length == AT_SIZE
      reads this, at, pmap, pmap.slots
    {
      && pmap.Valid() && pmap.rows == [] && pmap.nextFree == 0 && pmap.nentries == 0
      && lastPallocIndex == USERLO_PI && forall i :: Page(i) ==> at[i] == PageInfo(0, 0)
    }

    ghost function View(): Pmm
      requires Valid()
      reads this, at
    { Pmm(nps, at[..], lastPallocIndex) }

    // Zeroed static storage.
    constructor ()
      ensures Valid() && fresh(Repr()) && Zeroed()
    {
      pmap := new Pmmap();
      at := new PageInfo[AT_SIZE](_ => PageInfo(0, 0));
      nps, lastPallocIndex := 0, USERLO_PI;
    }

    method AtIsNorm(i: int) returns (r: bool)
      requires Valid() && Page(i)
      ensures r == Normal(View(), i)
    { r := at[i].perm > 1; }

    method AtIsAllocated(i: int) returns (r: bool)
      requires Valid() && Page(i)
      ensures r == Allocated(View(), i)
    { r := at[i].inUse > 0; }

    method AtSetPerm(i: int, perm: u32)
      requires Valid() && Page(i)
      modifies at
      ensures at[..] == old(at[..])[i := PageInfo(perm, 0)]
    { at[i] := PageInfo(perm, 0); }

    method AtSetAllocated(i: int, v: u32)
      requires Valid() && Page(i)
      modifies at
      ensures View() == SetAllocated(old(View()), i, v)
    { at[i] := at[i].(inUse := v); }

    // The scan runs over all user pages, also past nps, and uses nps itself as "not found".
    method DoPalloc() returns (r: int)
      requires Valid() && PmmOk(View())
      modifies this, at
      ensures (View(), r) == Palloc(old(View()))
    {
      var index, freeIndex, first := lastPallocIndex, nps as int, true;
      ghost var s := View();
      while (index != lastPallocIndex || first) && freeIndex == nps
        invariant UserPage(index) && View() == s && UserPage(lastPallocIndex)
        invariant freeIndex != nps ==> freeIndex == Scan(s, s.cursor, s.cursor) && freeIndex != 0
        invariant freeIndex == nps && (first || index != lastPallocIndex) ==>
          Scan(s, s.cursor, s.cursor) == Scan(s, index, s.cursor)
        invariant freeIndex == nps && !first && index == lastPallocIndex ==> Scan(s, s.cursor, s.cursor) == 0
        invariant first ==> index == lastPallocIndex
        decreases freeIndex == nps, if first then 0xB_0000 else Ahead(index, lastPallocIndex)
      {
        first := false;
        var norm := AtIsNorm(index);
        var taken := AtIsAllocated(index);
        if norm && !taken {
          freeIndex := index;
        }
        index := index + 1;
        if index >= USERHI_PI {
          index := USERLO_PI;
        }
      }
      if freeIndex == nps {
        freeIndex := 0;
        lastPallocIndex := USERLO_PI;
      } else {
        AtSetAllocated(freeIndex, 1);
        lastPallocIndex := freeIndex;
      }
      r := freeIndex;
    }

    method Pfree(i: int)
      requires Valid() && Page(i)
      modifies at
      ensures View() == SetAllocated(old(View()), i, 0)
    { AtSetAllocated(i, 0); }

    // get_mms and get_mms + get_mml: on rows that run forward the 32-bit sum is the row's end.
    method RowBounds(entry: int) returns (start: u32, end: u32)
      requires pmap.Valid() && pmap.nentries == |pmap.rows| && 0 <= entry < |pmap.rows| && Forward(pmap.rows)
      ensures start == pmap.rows[entry].start && end == pmap.rows[entry].end
    {
      hide Pmmap.Valid;
      start := pmap.GetMms(entry);
      var len := pmap.GetMml(entry);
      UnsignedSpan(start, pmap.rows[entry].end);
      end := ToU32(start + len);
    }

    // The inner search of pmem_init: the first row that contains the page, in 32-bit arithmetic.
    method ChoosePerm(i: int, n: int) returns (perm: u32)
      requires pmap.Valid() && pmap.nentries == |pmap.rows| == n && Forward(pmap.rows)
      requires UserPage(i)
      ensures perm == PagePerm(pmap.rows, i)
    {
      hide Pmmap.Valid, Forward;
      ghost var rs := pmap.rows;
      var entry, flag, isnorm := 0, false, false;
      while entry < n && !flag
        invariant 0 <= entry <= n && (flag ==> entry > 0)
        invariant FirstRow(rs, i, 0) == if flag then entry - 1 else FirstRow(rs, i, entry)
        invariant flag ==> isnorm == (rs[entry-1].typ == MEM_RAM)
        decreases n - entry
      {
        isnorm := pmap.IsUsable(entry);
        var start, end := RowBounds(entry);
        if start <= ToU32(i * 4096) && ToU32((i + 1) * 4096) <= end {
          flag := true;
        }
        entry := entry + 1;
      }
      perm := if flag && isnorm then 2 else 0;
    }

    method CountPages(n: int) returns (pages: u32)
      requires pmap.Valid() && pmap.nentries == |pmap.rows| == n && Forward(pmap.rows)
      ensures pages == MaxEnd(pmap.rows) / 4096
    {
      hide Pmmap.Valid, Forward;
      ghost var rs := pmap.rows;
      var top: u32, entry := 0, 0;
      while entry < n
        invariant 0 <= entry <= n && top == MaxEnd(rs[..entry])
      {
        var start, cur := RowBounds(entry);
        assert rs[..entry+1][..entry] == rs[..entry];
        if top < cur {
          top := cur;
        }
        entry := entry + 1;
      }
      assert rs[..n] == rs;
      pages := RoundDown(top) / 4096;
    }

    // More than 128 entries below 4G make the kernel panic.
    method PmemInit(es: seq<MmapEntry>)
      requires Valid() && Zeroed() && |Collect(es)| <= 128
      modifies Repr()
      ensures Valid() && Initialised(View(), Rows(es))
    {
      var _ := pmap.PmmapInit(es);
      ghost var rs := pmap.rows;
      RowsExact(es);
      var n := pmap.nentries;
      nps := CountPages(n);
      var pg := 0;
      while pg < nps
        invariant 0 <= pg <= nps == MaxEnd(rs) / 4096 && lastPallocIndex == USERLO_PI
        invariant pmap.Valid() && pmap.rows == rs && pmap.nentries == n
        invariant forall i :: Page(i) ==> at[i] == if i < pg then PageInfo(PagePerm(rs, i), 0) else PageInfo(0, 0)
      {
        if pg < USERLO_PI || USERHI_PI <= pg {
          AtSetPerm(pg, 1);
        } else {
          var perm := ChoosePerm(pg, n);
          AtSetPerm(pg, perm);
        }
        pg := pg + 1;
      }
    }
  }
}
