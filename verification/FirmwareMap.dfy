// kern/dev/mboot.c: the E820 ranges reported by the firmware, clamped to 4G, kept in a linked list
// sorted by start address over a static array of slots, and merged in place.
module FirmwareMap {
  import opened Words

  const MEM_RAM := 1
  const MEM_RESERVED := 2
  const NULL := -1
  const TOP := 0xFFFF_FFFF

  // One entry of the multiboot memory map (INT 15H E820H, section 15.1 of the ACPI specification).
  datatype MmapEntry = MmapEntry(base_low: u32, base_high: u32, length_low: u32, length_high: u32, typ: u32) {
    function Base(): int { base_high * 0x1_0000_0000 + base_low }
    function Length(): int { length_high * 0x1_0000_0000 + length_low }
    predicate Holds(t: u32, a: int) { typ == t && Base() <= a < Base() + Length() }
  }

  datatype Range = Range(start: u32, end: u32, typ: u32) {
    predicate Holds(t: u32, a: int) { typ == t && start <= a < end }
  }

  predicate InFirmware(es: seq<MmapEntry>, t: u32, a: int) {
    exists i :: 0 <= i < |es| && es[i].Holds(t, a)
  }

  predicate InRows(rs: seq<Range>, t: u32, a: int) {
    exists i :: 0 <= i < |rs| && rs[i].Holds(t, a)
  }

  ghost predicate Sorted(rs: seq<Range>) {
    forall i, j :: 0 <= i < j < |rs| ==> rs[i].start <= rs[j].start
  }

  ghost predicate Forward(rs: seq<Range>) {
    forall i :: 0 <= i < |rs| ==> rs[i].start <= rs[i].end
  }

  /* ----- sequence edits ----- */

  function InsertAt<T>(s: seq<T>, k: int, x: T): (r: seq<T>)
    requires 0 <= k <= |s|
    ensures |r| == |s| + 1 && r[k] == x
    ensures forall i :: 0 <= i < k ==> r[i] == s[i]
    ensures forall i :: k < i < |r| ==> r[i] == s[i-1]
  {
    s[..k] + [x] + s[k..]
  }

  function RemoveAt<T>(s: seq<T>, k: int): (r: seq<T>)
    requires 0 <= k < |s|
    ensures |r| == |s| - 1
    ensures forall i :: 0 <= i < k ==> r[i] == s[i]
    ensures forall i :: k <= i < |r| ==> r[i] == s[i+1]
  {
    s[..k] + s[k+1..]
  }

  /* ----- specification functions ----- */

  predicate Below4G(e: MmapEntry) { e.base_high == 0 }

  function Clamp(e: MmapEntry): Range {
    var end := if e.length_high != 0 || e.length_low >= TOP - e.base_low then TOP else e.base_low + e.length_low;
    Range(e.base_low, end, e.typ)
  }

  // Where a range with this start goes: before the first range that starts later.
  function Position(rs: seq<Range>, start: u32): (k: int)
    ensures 0 <= k <= |rs|
    ensures forall i :: 0 <= i < k ==> rs[i].start <= start
    ensures k < |rs| ==> start < rs[k].start
  {
    if rs == [] || start < rs[0].start then 0 else 1 + Position(rs[1..], start)
  }

  function Insert(rs: seq<Range>, r: Range): seq<Range> {
    InsertAt(rs, Position(rs, r.start), r)
  }

  predicate Joins(a: Range, b: Range) {
    a.start <= b.start && a.end >= b.start && a.typ == b.typ
  }

  // One pass: a range absorbs at most its immediate neighbour before the pass moves on.
  function Merge(rs: seq<Range>): seq<Range> {
    if |rs| < 2 then rs
    else if Joins(rs[0], rs[1]) then [rs[0].(end := Max(rs[0].end, rs[1].end))] + Merge(rs[2..])
    else [rs[0]] + Merge(rs[1..])
  }

  // What one absorption does to the rows, and why the rest of the pass is unaffected by it.
  function Absorb(rs: seq<Range>, k: int): seq<Range>
    requires 0 <= k < |rs| - 1
  {
    RemoveAt(rs[k := rs[k].(end := Max(rs[k].end, rs[k+1].end))], k + 1)
  }

  lemma MergeStep(rs: seq<Range>, k: int)
    requires 0 <= k < |rs| - 1
    ensures var rs' := if Joins(rs[k], rs[k+1]) then Absorb(rs, k) else rs;
      rs[..k] + Merge(rs[k..]) == rs'[..k+1] + Merge(rs'[k+1..])
  {
  }

  lemma MergeEnd(rs: seq<Range>, k: int)
    requires |rs| - 1 <= k <= |rs| && 0 <= k
    ensures rs[..k] + Merge(rs[k..]) == rs
  {
  }

  function Collect(es: seq<MmapEntry>): seq<Range> {
    if es == [] then []
    else
      var rs := Collect(es[..|es|-1]);
      var e := es[|es|-1];
      if Below4G(e) then Insert(rs, Clamp(e)) else rs
  }

  function Rows(es: seq<MmapEntry>): seq<Range> {
    Merge(Collect(es))
  }

  lemma {:induction false} CollectOne(es: seq<MmapEntry>, p: int)
    requires 0 <= p < |es|
    ensures Collect(es[..p + 1])
         == if Below4G(es[p]) then Insert(Collect(es[..p]), Clamp(es[p])) else Collect(es[..p])
    ensures |Collect(es[..p])| <= |Collect(es[..p + 1])|
    ensures Below4G(es[p]) ==> |Collect(es[..p + 1])| == |Collect(es[..p])| + 1
  {
    assert es[..p + 1][..p] == es[..p];
  }

  lemma {:induction false} CollectGrows(es: seq<MmapEntry>, p: int)
    requires 0 <= p <= |es|
    ensures |Collect(es[..p])| <= |Collect(es)|
    decreases |es| - p
  {
    hide Collect;
    if p == |es| {
      assert es[..p] == es;
    } else {
      CollectOne(es, p);
      CollectGrows(es, p + 1);
    }
  }

  /* ----- properties of the specification ----- */

  lemma ClampExact(e: MmapEntry, t: u32, a: int)
    requires Below4G(e)
    ensures Clamp(e).start <= Clamp(e).end
    ensures a < TOP ==> (Clamp(e).Holds(t, a) <==> e.Holds(t, a))
    ensures Clamp(e).Holds(t, a) ==> e.Holds(t, a)
  {
  }

  lemma InsertKeeps(rs: seq<Range>, r: Range, t: u32, a: int)
    ensures InRows(Insert(rs, r), t, a) <==> InRows(rs, t, a) || r.Holds(t, a)
  {
    var k := Position(rs, r.start);
    var s := Insert(rs, r);
    if i :| 0 <= i < |rs| && rs[i].Holds(t, a) {
      assert s[if i < k then i else i + 1] == rs[i];
    }
    if r.Holds(t, a) {
      assert s[k] == r;
    }
    if i :| 0 <= i < |s| && s[i].Holds(t, a) {
      assert i != k ==> s[i] == rs[if i < k then i else i - 1];
    }
  }

  lemma InsertSorted(rs: seq<Range>, r: Range)
    requires Sorted(rs) && Forward(rs) && r.start <= r.end
    ensures Sorted(Insert(rs, r)) && Forward(Insert(rs, r))
  {
  }

  lemma {:induction false} CollectSorted(es: seq<MmapEntry>)
    ensures Sorted(Collect(es)) && Forward(Collect(es)) && |Collect(es)| <= |es|
  {
    if es != [] {
      CollectSorted(es[..|es|-1]);
      if Below4G(es[|es|-1]) {
        InsertSorted(Collect(es[..|es|-1]), Clamp(es[|es|-1]));
      }
    }
  }

  lemma {:induction false} CollectExact(es: seq<MmapEntry>, t: u32, a: int)
    requires 0 <= a
    ensures InRows(Collect(es), t, a) ==> InFirmware(es, t, a)
    ensures a < TOP ==> (InRows(Collect(es), t, a) <==> InFirmware(es, t, a))
  {
    if es != [] {
      var n := |es| - 1;
      CollectExact(es[..n], t, a);
      assert InFirmware(es, t, a) <==> InFirmware(es[..n], t, a) || es[n].Holds(t, a) by {
        if i :| 0 <= i < |es| && es[i].Holds(t, a) {
          assert i < n ==> es[..n][i] == es[i];
        }
      }
      if Below4G(es[n]) {
        ClampExact(es[n], t, a);
        InsertKeeps(Collect(es[..n]), Clamp(es[n]), t, a);
      }
    }
  }

  lemma ConsRows(r: Range, rs: seq<Range>, t: u32, a: int)
    ensures InRows([r] + rs, t, a) <==> r.Holds(t, a) || InRows(rs, t, a)
  {
    var s := [r] + rs;
    if r.Holds(t, a) {
      assert s[0] == r;
    }
    if i :| 0 <= i < |rs| && rs[i].Holds(t, a) {
      assert s[i + 1] == rs[i];
    }
  }

  // In-place merging keeps, for every type, exactly the set of covered addresses.
  lemma {:induction false} MergeKeeps(rs: seq<Range>, t: u32, a: int)
    requires Sorted(rs) && Forward(rs)
    ensures InRows(Merge(rs), t, a) <==> InRows(rs, t, a)
    decreases |rs|
  {
    if |rs| >= 2 {
      assert rs == [rs[0]] + rs[1..] && rs[1..] == [rs[1]] + rs[2..];
      ConsRows(rs[0], rs[1..], t, a);
      ConsRows(rs[1], rs[2..], t, a);
      if Joins(rs[0], rs[1]) {
        MergeKeeps(rs[2..], t, a);
        ConsRows(rs[0].(end := Max(rs[0].end, rs[1].end)), Merge(rs[2..]), t, a);
      } else {
        MergeKeeps(rs[1..], t, a);
        ConsRows(rs[0], Merge(rs[1..]), t, a);
      }
    }
  }

  lemma {:induction false} MergeSorted(rs: seq<Range>)
    requires Sorted(rs) && Forward(rs)
    ensures Sorted(Merge(rs)) && Forward(Merge(rs)) && |Merge(rs)| <= |rs|
    ensures rs != [] ==> Merge(rs) != [] && Merge(rs)[0].start == rs[0].start
    decreases |rs|
  {
    if |rs| >= 2 {
      if Joins(rs[0], rs[1]) {
        MergeSorted(rs[2..]);
      } else {
        MergeSorted(rs[1..]);
      }
    }
  }

  /* ----- what the pass achieves ----- */

  // Two rows of one type overlap or touch, the first of them not starting later.
  predicate Meets(a: Range, b: Range) { a.typ == b.typ && b.start <= a.end }

  // The test of the pass, on sorted rows.
  lemma JoinsMeets(a: Range, b: Range)
    requires a.start <= b.start
    ensures Joins(a, b) <==> Meets(a, b)
  {
  }

  // No two rows of one type meet, next to each other in the list or not.
  ghost predicate Disjoint(rs: seq<Range>) {
    forall i, j :: 0 <= i < j < |rs| ==> !Meets(rs[i], rs[j])
  }

  // Any two rows of one type that meet are neighbours, and the first of them meets no row before it.
  ghost predicate OnlyPairs(rs: seq<Range>) {
    forall i, j :: 0 <= i < j < |rs| && Meets(rs[i], rs[j]) ==> j == i + 1 && (i == 0 || !Meets(rs[i - 1], rs[i]))
  }

  ghost predicate MeetsNone(r: Range, rs: seq<Range>) {
    forall j :: 0 <= j < |rs| ==> !Meets(r, rs[j])
  }

  lemma ConsDisjoint(r: Range, rs: seq<Range>)
    ensures Disjoint([r] + rs) <==> MeetsNone(r, rs) && Disjoint(rs)
  {
    var s := [r] + rs;
    hide Meets;
    assert s[0] == r && forall i :: 0 <= i < |rs| ==> s[i + 1] == rs[i];
    if Disjoint(s) {
      forall i, j | 0 <= i < j < |rs|
        ensures !Meets(rs[i], rs[j])
      {
        assert !Meets(s[i + 1], s[j + 1]);
      }
      forall j | 0 <= j < |rs|
        ensures !Meets(r, rs[j])
      {
        assert !Meets(s[0], s[j + 1]);
      }
    }
  }

  // What a joined pair meets behind it, and what meets it from the front.
  lemma JoinedPair(r: Range, a: Range, b: Range, c: Range)
    requires Meets(a, b) && r.start <= a.start <= b.start <= c.start
    ensures var m := a.(end := Max(a.end, b.end));
      && (Meets(m, c) <==> Meets(a, c) || Meets(b, c))
      && (Meets(r, m) <==> Meets(r, a)) && (Meets(r, b) ==> Meets(r, a))
  {
  }

  // A row in front of all others meets some row after the pass exactly if it met one before.
  lemma {:induction false} MeetsMerged(r: Range, rs: seq<Range>)
    requires Sorted(rs) && Forward(rs) && (rs != [] ==> r.start <= rs[0].start)
    ensures MeetsNone(r, Merge(rs)) <==> MeetsNone(r, rs)
    decreases |rs|
  {
    hide Joins, Meets, MeetsNone;
    if |rs| >= 2 {
      JoinsMeets(rs[0], rs[1]);
      assert rs == [rs[0]] + rs[1..] && rs[1..] == [rs[1]] + rs[2..];
      ConsMeets(r, rs[0], rs[1..]);
      ConsMeets(r, rs[1], rs[2..]);
      if Joins(rs[0], rs[1]) {
        JoinedPair(r, rs[0], rs[1], rs[1]);
        MeetsMerged(r, rs[2..]);
        ConsMeets(r, rs[0].(end := Max(rs[0].end, rs[1].end)), Merge(rs[2..]));
      } else {
        MeetsMerged(r, rs[1..]);
        ConsMeets(r, rs[0], Merge(rs[1..]));
      }
    }
  }

  lemma ConsMeets(r: Range, x: Range, rs: seq<Range>)
    ensures MeetsNone(r, [x] + rs) <==> !Meets(r, x) && MeetsNone(r, rs)
  {
    var s := [x] + rs;
    hide Meets;
    assert s[0] == x && forall i :: 0 <= i < |rs| ==> s[i + 1] == rs[i];
    if MeetsNone(r, s) {
      assert !Meets(r, s[0]);
      forall j | 0 <= j < |rs|
        ensures !Meets(r, rs[j])
      {
        assert !Meets(r, s[j + 1]);
      }
    }
  }

  lemma PairsAfterJoin(rs: seq<Range>)
    requires Sorted(rs) && |rs| >= 2 && Meets(rs[0], rs[1])
    ensures OnlyPairs(rs) <==>
      MeetsNone(rs[0].(end := Max(rs[0].end, rs[1].end)), rs[2..]) && OnlyPairs(rs[2..])
  {
    hide Meets;
    var m, s := rs[0].(end := Max(rs[0].end, rs[1].end)), rs[2..];
    forall j | 2 <= j < |rs|
      ensures rs[j] == s[j - 2] && (Meets(m, s[j - 2]) <==> Meets(rs[0], rs[j]) || Meets(rs[1], rs[j]))
    {
      JoinedPair(rs[0], rs[0], rs[1], rs[j]);
    }
    if OnlyPairs(rs) {
      forall j | 0 <= j < |s|
        ensures !Meets(m, s[j])
      {
        assert rs[j + 2] == s[j + 2 - 2];
      }
      TailPairs(rs, 2);
    }
    if MeetsNone(m, s) && OnlyPairs(s) {
      PairsBehind(rs, m, s);
    }
  }

  lemma TailPairs(rs: seq<Range>, n: int)
    requires OnlyPairs(rs) && 0 <= n <= |rs|
    ensures OnlyPairs(rs[n..])
  {
    hide Meets;
    var s := rs[n..];
    forall i, j | 0 <= i < j < |s| && Meets(s[i], s[j])
      ensures j == i + 1 && (i == 0 || !Meets(s[i - 1], s[i]))
    {
      assert Meets(rs[i + n], rs[j + n]);
      assert i > 0 ==> s[i - 1] == rs[i + n - 1];
    }
  }

  lemma PairsBehind(rs: seq<Range>, m: Range, s: seq<Range>)
    requires |rs| >= 2 && Meets(rs[0], rs[1]) && s == rs[2..] && MeetsNone(m, s) && OnlyPairs(s)
    requires forall j :: 2 <= j < |rs| && (Meets(rs[0], rs[j]) || Meets(rs[1], rs[j])) ==> Meets(m, s[j - 2])
    ensures OnlyPairs(rs)
  {
    hide Meets;
    forall i, j | 0 <= i < j < |rs| && Meets(rs[i], rs[j])
      ensures j == i + 1 && (i == 0 || !Meets(rs[i - 1], rs[i]))
    {
      if i >= 2 {
        assert Meets(s[i - 2], s[j - 2]);
        assert i > 2 ==> s[i - 3] == rs[i - 1];
      }
    }
  }

  lemma PairsAfterStep(rs: seq<Range>)
    requires |rs| >= 2 && !Meets(rs[0], rs[1])
    ensures OnlyPairs(rs) <==> MeetsNone(rs[0], rs[1..]) && OnlyPairs(rs[1..])
  {
    var s := rs[1..];
    hide Meets;
    assert forall i :: 0 <= i < |s| ==> rs[i + 1] == s[i];
    if OnlyPairs(rs) {
      forall j | 0 <= j < |s|
        ensures !Meets(rs[0], s[j])
      {
        assert !Meets(rs[0], rs[j + 1]);
      }
      TailPairs(rs, 1);
    }
    if MeetsNone(rs[0], s) && OnlyPairs(s) {
      forall i, j | 0 <= i < j < |rs| && Meets(rs[i], rs[j])
        ensures j == i + 1 && (i == 0 || !Meets(rs[i - 1], rs[i]))
      {
        if i >= 1 {
          assert Meets(s[i - 1], s[j - 1]);
          assert i > 1 ==> s[i - 2] == rs[i - 1];
        }
      }
    }
  }

  // "Merge overlapped entries" is not what one pass achieves: a widened row is not compared with its new
  // neighbour, and rows with a row of another type between them are never compared. No two rows of one type
  // meet afterwards if and only if those that met before were neighbours, in pairs.
  lemma {:induction false} MergeCompleteIff(rs: seq<Range>)
    requires Sorted(rs) && Forward(rs)
    ensures Disjoint(Merge(rs)) <==> OnlyPairs(rs)
    decreases |rs|
  {
    hide Joins, Meets, Disjoint, OnlyPairs, MeetsNone;
    if |rs| >= 2 {
      JoinsMeets(rs[0], rs[1]);
    }
    if |rs| < 2 {
      FewRows(rs);
    } else if Joins(rs[0], rs[1]) {
      var m := rs[0].(end := Max(rs[0].end, rs[1].end));
      MergeCompleteIff(rs[2..]);
      PairsAfterJoin(rs);
      MeetsMerged(m, rs[2..]);
      ConsDisjoint(m, Merge(rs[2..]));
    } else {
      MergeCompleteIff(rs[1..]);
      PairsAfterStep(rs);
      MeetsMerged(rs[0], rs[1..]);
      ConsDisjoint(rs[0], Merge(rs[1..]));
    }
  }

  lemma FewRows(rs: seq<Range>)
    requires |rs| < 2
    ensures Disjoint(rs) && OnlyPairs(rs)
  {
  }

  function LowEntry(start: u32, length: u32, typ: u32): MmapEntry {
    MmapEntry(start, 0, length, 0, typ)
  }

  lemma {:induction false} CollectTwo(a: MmapEntry, b: MmapEntry)
    requires Below4G(a) && Below4G(b) && a.base_low <= b.base_low
    ensures Collect([a, b]) == [Clamp(a), Clamp(b)]
  {
    hide Clamp, Insert;
    assert [a, b][..1] == [a] && [a][..0] == [];
    InsertLast([], Clamp(a));
    assert Collect([a]) == [Clamp(a)];
    ClampStart(a);
    ClampStart(b);
    InsertLast([Clamp(a)], Clamp(b));
  }

  lemma {:induction false} CollectThree(a: MmapEntry, b: MmapEntry, c: MmapEntry)
    requires Below4G(a) && Below4G(b) && Below4G(c) && a.base_low <= b.base_low <= c.base_low
    ensures Collect([a, b, c]) == [Clamp(a), Clamp(b), Clamp(c)]
  {
    hide Clamp, Insert;
    assert [a, b, c][..2] == [a, b];
    CollectTwo(a, b);
    ClampStart(a);
    ClampStart(b);
    ClampStart(c);
    InsertLast([Clamp(a), Clamp(b)], Clamp(c));
  }

  lemma ClampStart(e: MmapEntry)
    ensures Clamp(e).start == e.base_low
  {
  }

  lemma {:induction false} MergeThree(a: Range, b: Range, c: Range)
    ensures Joins(a, b) ==> Merge([a, b, c]) == [a.(end := Max(a.end, b.end)), c]
    ensures !Joins(a, b) && !Joins(b, c) ==> Merge([a, b, c]) == [a, b, c]
  {
    hide Joins;
    assert [a, b, c][1..] == [b, c] && [b, c][1..] == [c] && [a, b, c][2..] == [c];
    assert Merge([c]) == [c];
    if !Joins(b, c) {
      assert Merge([b, c]) == [b, c];
    }
  }

  // Firmware maps with which the table still holds two RAM rows that meet: three in a row, and two with a
  // reserved row between them.
  lemma {:induction false} MergeIsOnePass()
    ensures Rows([LowEntry(0, 10, MEM_RAM), LowEntry(5, 15, MEM_RAM), LowEntry(15, 15, MEM_RAM)])
         == [Range(0, 20, MEM_RAM), Range(15, 30, MEM_RAM)]
    ensures Rows([LowEntry(0, 100, MEM_RAM), LowEntry(50, 10, MEM_RESERVED), LowEntry(55, 145, MEM_RAM)])
         == [Range(0, 100, MEM_RAM), Range(50, 60, MEM_RESERVED), Range(55, 200, MEM_RAM)]
  {
    hide Collect, Merge;
    CollectThree(LowEntry(0, 10, MEM_RAM), LowEntry(5, 15, MEM_RAM), LowEntry(15, 15, MEM_RAM));
    MergeThree(Range(0, 10, MEM_RAM), Range(5, 20, MEM_RAM), Range(15, 30, MEM_RAM));
    CollectThree(LowEntry(0, 100, MEM_RAM), LowEntry(50, 10, MEM_RESERVED), LowEntry(55, 145, MEM_RAM));
    MergeThree(Range(0, 100, MEM_RAM), Range(50, 60, MEM_RESERVED), Range(55, 200, MEM_RAM));
  }

  lemma InsertLast(rs: seq<Range>, r: Range)
    requires forall i :: 0 <= i < |rs| ==> rs[i].start <= r.start
    ensures Insert(rs, r) == rs + [r]
  {
  }

  // What was one row is within one row afterwards.
  lemma {:induction false} MergeContains(rs: seq<Range>, k: int) returns (j: int)
    requires 0 <= k < |rs|
    ensures 0 <= j < |Merge(rs)| && Merge(rs)[j].typ == rs[k].typ
    ensures Merge(rs)[j].start <= rs[k].start && rs[k].end <= Merge(rs)[j].end
    decreases |rs|
  {
    if |rs| < 2 {
      j := k;
    } else if Joins(rs[0], rs[1]) {
      if k < 2 {
        j := 0;
      } else {
        j := MergeContains(rs[2..], k - 2);
        j := j + 1;
      }
    } else if k == 0 {
      j := 0;
    } else {
      j := MergeContains(rs[1..], k - 1);
      j := j + 1;
    }
  }

  // Every entry below 4G has its row among those collected.
  lemma {:induction false} CollectHas(es: seq<MmapEntry>, k: int) returns (j: int)
    requires 0 <= k < |es| && Below4G(es[k])
    ensures 0 <= j < |Collect(es)| && Collect(es)[j] == Clamp(es[k])
    decreases |es|
  {
    hide Clamp;
    var n := |es| - 1;
    var rs := Collect(es[..n]);
    var e := es[n];
    if k == n {
      j := Position(rs, Clamp(e).start);
    } else {
      j := CollectHas(es[..n], k);
      if Below4G(e) && Position(rs, Clamp(e).start) <= j {
        j := j + 1;
      }
    }
  }

  // The whole table: sorted, and below the top byte exactly the firmware's addresses, type by type.
  lemma RowsExact(es: seq<MmapEntry>)
    ensures Sorted(Rows(es)) && Forward(Rows(es)) && |Rows(es)| <= |es|
    ensures forall t: u32, a :: 0 <= a && InRows(Rows(es), t, a) ==> InFirmware(es, t, a)
    ensures forall t: u32, a :: 0 <= a < TOP ==> (InRows(Rows(es), t, a) <==> InFirmware(es, t, a))
  {
    CollectSorted(es);
    MergeSorted(Collect(es));
    forall t: u32, a | 0 <= a
      ensures InRows(Rows(es), t, a) ==> InFirmware(es, t, a)
      ensures a < TOP ==> (InRows(Rows(es), t, a) <==> InFirmware(es, t, a))
    {
      CollectExact(es, t, a);
      MergeKeeps(Collect(es), t, a);
    }
  }

  /* ----- the linked list over the static slot array ----- */

  // A pointer into the static array is its index; -1 is NULL.
  datatype Slot = Slot(start: u32, end: u32, typ: u32, next: int)

  function LinkTo(list: seq<int>, i: int): int
    requires 0 <= i
  {
    if i < |list| then list[i] else NULL
  }

  function Cell(list: seq<int>, r: Range, i: int): Slot
    requires 0 <= i < |list|
  {
    Slot(r.start, r.end, r.typ, LinkTo(list, i + 1))
  }

  ghost predicate Distinct(list: seq<int>) {
    forall i, j :: 0 <= i < j < |list| ==> list[i] != list[j]
  }

  ghost predicate Holds(ss: seq<Slot>, list: seq<int>, rows: seq<Range>) {
    |list| == |rows| && forall i :: 0 <= i < |list| ==> 0 <= list[i] < |ss| && ss[list[i]] == Cell(list, rows[i], i)
  }

  // The slots reached from head are those in list, in that order, once each, and hold rows.
  ghost predicate Chain(ss: seq<Slot>, nextFree: int, head: int, list: seq<int>, rows: seq<Range>) {
    && |ss| == 128 && 0 <= nextFree <= 128
    && (forall i :: 0 <= i < |list| ==> 0 <= list[i] < nextFree)
    && Distinct(list) && Holds(ss, list, rows) && head == LinkTo(list, 0)
  }

  // Filling in a slot that is not linked does not touch the list.
  lemma FillFree(ss: seq<Slot>, ss': seq<Slot>, n: int, head: int, list: seq<int>, rows: seq<Range>, x: int)
    requires Chain(ss, n, head, list, rows) && x !in list && |ss'| == |ss|
    requires forall i :: 0 <= i < |ss| && i != x ==> ss'[i] == ss[i]
    ensures Chain(ss', n, head, list, rows)
  {
  }

  lemma DistinctInsert(list: seq<int>, k: int, x: int)
    requires Distinct(list) && 0 <= k <= |list| && x !in list
    ensures Distinct(InsertAt(list, k, x))
  {
  }

  lemma DistinctRemove(list: seq<int>, k: int)
    requires Distinct(list) && 0 <= k < |list|
    ensures Distinct(RemoveAt(list, k))
  {
  }

  lemma HoldsAt(ss: seq<Slot>, list: seq<int>, rows: seq<Range>, i: int)
    requires Holds(ss, list, rows) && 0 <= i < |list|
    ensures |list| == |rows| && 0 <= list[i] < |ss|
    ensures ss[list[i]] == Slot(rows[i].start, rows[i].end, rows[i].typ, LinkTo(list, i + 1))
  {
  }

  // Before, at and behind the place of the new slot.
  lemma LinkedCell(ss: seq<Slot>, ss': seq<Slot>, list: seq<int>, rows: seq<Range>, k: int, x: int, r: Range, i: int)
    requires Holds(ss, list, rows) && Distinct(list) && 0 <= k <= |list| && 0 <= x < |ss| && |ss'| == |ss| && x !in list
    requires ss'[x] == Slot(r.start, r.end, r.typ, LinkTo(list, k))
    requires k > 0 ==> ss'[list[k-1]] == ss[list[k-1]].(next := x)
    requires forall i :: 0 <= i < |ss| && i != x && (k > 0 ==> i != list[k-1]) ==> ss'[i] == ss[i]
    requires 0 <= i <= |list| == |rows|
    ensures var l, rs := InsertAt(list, k, x), InsertAt(rows, k, r);
      0 <= l[i] < |ss'| && ss'[l[i]] == Slot(rs[i].start, rs[i].end, rs[i].typ, LinkTo(l, i + 1))
  {
    hide InsertAt, Holds;
    var l, rs := InsertAt(list, k, x), InsertAt(rows, k, r);
    if i < k {
      assert l[i] == list[i] && rs[i] == rows[i] && list[i] != x;
      HoldsAt(ss, list, rows, i);
      if i < k - 1 {
        assert list[i] != list[k-1] && l[i+1] == list[i+1];
      }
    } else if i > k {
      assert l[i] == list[i-1] && rs[i] == rows[i-1] && list[i-1] != x;
      HoldsAt(ss, list, rows, i - 1);
      assert k > 0 ==> list[i-1] != list[k-1];
    }
  }

  lemma LinkSlotCells(ss: seq<Slot>, ss': seq<Slot>, list: seq<int>, rows: seq<Range>, k: int, x: int, r: Range)
    requires Holds(ss, list, rows) && Distinct(list) && 0 <= k <= |list| && 0 <= x < |ss| && |ss'| == |ss| && x !in list
    requires ss'[x] == Slot(r.start, r.end, r.typ, LinkTo(list, k))
    requires k > 0 ==> ss'[list[k-1]] == ss[list[k-1]].(next := x)
    requires forall i :: 0 <= i < |ss| && i != x && (k > 0 ==> i != list[k-1]) ==> ss'[i] == ss[i]
    ensures Holds(ss', InsertAt(list, k, x), InsertAt(rows, k, r))
  {
    hide InsertAt, Distinct, LinkTo;
    var l, rs := InsertAt(list, k, x), InsertAt(rows, k, r);
    forall i | 0 <= i < |l|
      ensures 0 <= l[i] < |ss'| && ss'[l[i]] == Cell(l, rs[i], i)
    {
      LinkedCell(ss, ss', list, rows, k, x, r, i);
    }
  }

  // SLIST_INSERT_HEAD (k == 0) and SLIST_INSERT_AFTER of an unlinked slot x.
  lemma LinkSlot(ss: seq<Slot>, ss': seq<Slot>, n: int, head: int, list: seq<int>, rows: seq<Range>, k: int,
      x: int, r: Range)
    requires Chain(ss, n, head, list, rows) && 0 <= k <= |list| && 0 <= x < n && |ss'| == |ss| && x !in list
    requires ss'[x] == Slot(r.start, r.end, r.typ, LinkTo(list, k))
    requires k > 0 ==> ss'[list[k-1]] == ss[list[k-1]].(next := x)
    requires forall i :: 0 <= i < |ss| && i != x && (k > 0 ==> i != list[k-1]) ==> ss'[i] == ss[i]
    ensures Chain(ss', n, if k == 0 then x else head, InsertAt(list, k, x), InsertAt(rows, k, r))
  {
    hide InsertAt, Holds, Distinct;
    LinkSlotCells(ss, ss', list, rows, k, x, r);
    DistinctInsert(list, k, x);
  }

  lemma UnlinkNextCells(ss: seq<Slot>, ss': seq<Slot>, list: seq<int>, rows: seq<Range>, k: int, r: Range)
    requires Holds(ss, list, rows) && Distinct(list) && 0 <= k < |list| - 1 && |ss'| == |ss|
    requires ss'[list[k]] == Slot(r.start, r.end, r.typ, LinkTo(list, k + 2))
    requires forall i :: 0 <= i < |ss| && i != list[k] ==> ss'[i] == ss[i]
    ensures Holds(ss', RemoveAt(list, k + 1), RemoveAt(rows[k := r], k + 1))
  {
  }

  // SLIST_REMOVE_AFTER on element k, whose range has become r.
  lemma UnlinkNext(ss: seq<Slot>, ss': seq<Slot>, n: int, head: int, list: seq<int>, rows: seq<Range>, k: int, r: Range)
    requires Chain(ss, n, head, list, rows) && 0 <= k < |list| - 1 && |ss'| == |ss|
    requires ss'[list[k]] == Slot(r.start, r.end, r.typ, LinkTo(list, k + 2))
    requires forall i :: 0 <= i < |ss| && i != list[k] ==> ss'[i] == ss[i]
    ensures Chain(ss', n, head, RemoveAt(list, k + 1), RemoveAt(rows[k := r], k + 1))
  {
    hide RemoveAt, Holds, Distinct;
    UnlinkNextCells(ss, ss', list, rows, k, r);
    DistinctRemove(list, k + 1);
  }

  class Pmmap {
    const slots: array<Slot>
    var nextFree: int
    var head: int
    var nentries: int
    ghost var list: seq<int>     // the slots on the list, in order
    ghost var rows: seq<Range>   // their contents

    ghost function Repr(): set<object> { {this, slots} }

    ghost predicate Valid()
      reads this, slots
    {
      slots.Length == 128 && Chain(slots[..], nextFree, head, list, rows)
    }

    // What following a pointer to the k-th element finds.
    lemma Visit(k: int)
      requires Valid() && 0 <= k < |list|
      ensures |rows| == |list| && 0 <= list[k] < nextFree <= slots.Length && slots[list[k]] == Cell(list, rows[k], k)
    {
    }

    constructor ()
      ensures Valid() && fresh(slots) && rows == [] && nextFree == 0 && nentries == 0
    {
      slots := new Slot[128](_ => Slot(0, 0, 0, NULL));
      nextFree, head, nentries := 0, NULL, 0;
      list, rows := [], [];
    }

    // The search loop of pmmap_insert: the last slot that does not start later.
    method LastNotAfter(start: u32) returns (last: int, ghost k: int)
      requires Valid()
      ensures |rows| == |list| && k == Position(rows, start)
      ensures last == if Position(rows, start) == 0 then NULL else list[Position(rows, start) - 1]
    {
      hide Pmmap.Valid;
      var slot := head;
      last, k := NULL, 0;
      Start();
      while true
        invariant 0 <= k <= |list| == |rows| && slot == LinkTo(list, k) && last == if k == 0 then NULL else list[k-1]
        invariant k < |list| ==> slot != NULL
        invariant forall i :: 0 <= i < k ==> rows[i].start <= start
        decreases |list| - k
      {
        if slot == NULL {
          break;
        }
        Visit(k);
        if start < slots[slot].start {
          break;
        }
        last := slot;
        slot := slots[slot].next;
        k := k + 1;
        if k < |list| {
          Visit(k);
        }
      }
    }

    lemma Start()
      requires Valid()
      ensures |list| == |rows| && head == LinkTo(list, 0) && (head == NULL <==> list == [])
    {
    }

    // pmmap_alloc_slot
    method AllocSlot() returns (x: int)
      requires Valid()
      modifies `nextFree
      ensures Valid() && slots.Length == 128 && 0 <= old(nextFree) <= 128 && nextFree == Min(old(nextFree) + 1, 128)
      ensures if old(nextFree) == 128 then x == NULL else x == old(nextFree) && x !in list
    {
      if nextFree == 128 {
        return NULL;
      }
      x := nextFree;
      nextFree := nextFree + 1;
    }

    // SLIST_INSERT_HEAD or SLIST_INSERT_AFTER of an unlinked slot.
    method Link(x: int, last: int, ghost k: int)
      requires Valid() && 0 <= x < nextFree && x !in list && nextFree <= slots.Length
      requires 0 <= k <= |list| == |rows| && last == if k == 0 then NULL else list[k-1]
      modifies slots, `head, `list, `rows
      ensures Valid() && list == InsertAt(old(list), k, x)
      ensures rows == InsertAt(old(rows), k, Range(old(slots[x]).start, old(slots[x]).end, old(slots[x]).typ))
    {
      ghost var ss := slots[..];
      ghost var r := Range(slots[x].start, slots[x].end, slots[x].typ);
      Start();
      if k > 0 {
        Visit(k - 1);
      }
      if last == NULL {
        slots[x] := slots[x].(next := head);
        head := x;
      } else {
        slots[x] := slots[x].(next := slots[last].next);
        slots[last] := slots[last].(next := x);
      }
      hide Chain, InsertAt;
      LinkSlot(ss, slots[..], nextFree, old(head), list, rows, k, x, r);
      list, rows := InsertAt(list, k, x), InsertAt(rows, k, r);
    }

    method Fill(x: int, start: u32, end: u32, typ: u32)
      requires Valid() && 0 <= x < slots.Length && x !in list
      modifies slots
      ensures Valid() && slots[x].start == start && slots[x].end == end && slots[x].typ == typ
    {
      ghost var ss := slots[..];
      slots[x] := Slot(start, end, typ, slots[x].next);
      FillFree(ss, slots[..], nextFree, head, list, rows, x);
    }

    // pmmap_insert; not ok is the kernel's panic on a 129th entry.
    method PmmapInsert(start: u32, end: u32, typ: u32) returns (ok: bool)
      requires Valid()
      modifies Repr()
      ensures Valid() && ok == (old(nextFree) < 128) && nentries == old(nentries)
      ensures ok ==> nextFree == old(nextFree) + 1 && rows == Insert(old(rows), Range(start, end, typ))
      ensures !ok ==> nextFree == old(nextFree) && rows == old(rows)
    {
      hide Pmmap.Valid, InsertAt, Position;
      var x := AllocSlot();
      if x == NULL {
        return false;
      }
      Fill(x, start, end, typ);
      var last, k := LastNotAfter(start);
      Start();
      Link(x, last, k);
      ok := true;
    }

    // pmmap_merge, step 1: the neighbour is unlinked while the list is being traversed.
    method PmmapMerge()
      requires Valid()
      modifies Repr()
      ensures Valid() && nextFree == old(nextFree) && nentries == old(nentries)
      ensures rows == Merge(old(rows))
    {
      hide Pmmap.Valid, Merge;
      var slot := head;
      ghost var k := 0;
      Start();
      assert rows[..0] + Merge(rows[0..]) == Merge(rows) by { assert rows[0..] == rows; }
      while slot != NULL
        invariant Valid() && 0 <= k <= |list| == |rows| && slot == LinkTo(list, k)
        invariant k < |list| ==> slot != NULL
        invariant nextFree == old(nextFree) && nentries == old(nentries)
        invariant Merge(old(rows)) == rows[..k] + Merge(rows[k..])
        decreases |list| - k
      {
        Visit(k);
        var next := slots[slot].next;
        if k + 1 < |list| {
          Visit(k + 1);
        }
        if next == NULL {
          break;
        }
        MergeStep(rows, k);
        if slots[slot].start <= slots[next].start && slots[slot].end >= slots[next].start
          && slots[slot].typ == slots[next].typ {
          AbsorbNext(slot, k);
          Visit(k);
        }
        slot := slots[slot].next;
        k := k + 1;
        if k < |list| {
          Visit(k);
        }
      }
      MergeEnd(rows, k);
    }

    // The body of the merge: widen the slot, then SLIST_REMOVE_AFTER.
    method AbsorbNext(slot: int, ghost k: int)
      requires Valid() && 0 <= k < |list| - 1 && slot == list[k] && |rows| == |list|
      modifies Repr()
      ensures Valid() && nextFree == old(nextFree) && nentries == old(nentries)
      ensures list == RemoveAt(old(list), k + 1)
      ensures rows == Absorb(old(rows), k)
    {
      ghost var ss := slots[..];
      Visit(k);
      Visit(k + 1);
      hide Chain, RemoveAt;
      var next := slots[slot].next;
      slots[slot] := slots[slot].(end := Max(slots[slot].end, slots[next].end));
      slots[slot] := slots[slot].(next := slots[slots[slot].next].next);
      ghost var r := rows[k].(end := slots[slot].end);
      UnlinkNext(ss, slots[..], nextFree, head, list, rows, k, r);
      list, rows := RemoveAt(list, k + 1), RemoveAt(rows[k := r], k + 1);
    }

    // pmmap_init; the kernel panics when more than 128 entries lie below 4G.
    method PmmapInit(es: seq<MmapEntry>) returns (ok: bool)
      requires Valid() && rows == [] && nextFree == 0 && nentries == 0
      modifies Repr()
      ensures Valid() && ok == (|Collect(es)| <= 128)
      ensures ok ==> rows == Rows(es) && nentries == |rows|
    {
      hide Pmmap.Valid, Insert, Merge;
      var p := 0;
      Start();
      while p < |es|
        invariant 0 <= p <= |es| && Valid() && nextFree == |rows| && nentries == 0
        invariant rows == Collect(es[..p])
      {
        CollectOne(es, p);
        if es[p].base_high == 0 {
          var start := es[p].base_low;
          var end: u32;
          if es[p].length_high != 0 || es[p].length_low >= TOP - start {
            end := TOP;
          } else {
            end := start + es[p].length_low;
          }
          ok := PmmapInsert(start, end, es[p].typ);
          if !ok {
            CollectGrows(es, p + 1);
            return;
          }
        }
        p := p + 1;
      }
      assert es[..p] == es;
      SlotsBound();
      PmmapMerge();
      CountEntries();
      ok := true;
    }

    lemma SlotsBound()
      requires Valid()
      ensures 0 <= nextFree <= 128
    {
    }

    method CountEntries()
      requires Valid() && nentries == 0
      modifies `nentries
      ensures Valid() && nentries == |rows|
    {
      hide Chain;
      Start();
      var slot := head;
      while slot != NULL
        invariant 0 <= nentries <= |list| == |rows| && slot == LinkTo(list, nentries) && Valid()
        invariant nentries < |list| ==> slot != NULL
        decreases |list| - nentries
      {
        Visit(nentries);
        nentries := nentries + 1;
        slot := slots[slot].next;
        if nentries < |list| {
          Visit(nentries);
        }
      }
    }

    // The traversal shared by the three row getters.
    method Seek(idx: int) returns (slot: int, i: int)
      requires Valid()
      ensures 0 <= i <= |list| == |rows| && i == if 0 <= idx <= |list| then idx else |list|
      ensures slot == LinkTo(list, i) && (slot == NULL <==> i == |list|)
      ensures i < |list| ==> 0 <= slot < slots.Length && slots[slot] == Cell(list, rows[i], i)
    {
      hide Pmmap.Valid;
      i, slot := 0, head;
      Start();
      while slot != NULL && i != idx
        invariant 0 <= i <= |list| == |rows| && slot == LinkTo(list, i) && (0 <= idx ==> i <= idx)
        invariant slot == NULL <==> i == |list|
        decreases |list| - i
      {
        Visit(i);
        i := i + 1;
        slot := slots[slot].next;
        if i < |list| {
          Visit(i);
        }
      }
      if i < |list| {
        Visit(i);
      }
    }

    method GetMms(idx: int) returns (r: u32)
      requires Valid() && nentries == |rows|
      ensures r == if 0 <= idx < |rows| then rows[idx].start else 0
    {
      hide Pmmap.Valid;
      var slot, i := Seek(idx);
      r := if slot == NULL || i == nentries then 0 else slots[slot].start;
    }

    // The subtraction is unsigned.
    method GetMml(idx: int) returns (r: u32)
      requires Valid() && nentries == |rows|
      ensures r == if 0 <= idx < |rows| then ToU32(rows[idx].end - rows[idx].start) else 0
    {
      hide Pmmap.Valid;
      var slot, i := Seek(idx);
      r := if slot == NULL || i == nentries then 0 else ToU32(slots[slot].end - slots[slot].start);
    }

    method IsUsable(idx: int) returns (r: bool)
      requires Valid() && nentries == |rows|
      ensures r == (0 <= idx < |rows| && rows[idx].typ == MEM_RAM)
    {
      hide Pmmap.Valid;
      var slot, i := Seek(idx);
      r := if slot == NULL || i == nentries then false else slots[slot].typ == MEM_RAM;
    }
  }
}
