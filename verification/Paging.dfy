/** kernel/vmm.c: two-level paging with 4MB pages that are split into tables on demand.
    Page tables are frames of physical memory; the hardware walk is `Translate`. */
module Paging {
  import opened Arith
  import opened Base
  import opened HeapList
  import opened Pmm

  const BIG: int := 0x40_0000
  const P: int := 1
  const W: int := 2
  const WT: int := 8
  const NC: int := 16
  const PS: int := 128

  predicate Present(e: u32) { e % 2 == 1 }
  predicate Writable(e: u32) { e / 2 % 2 == 1 }
  predicate User(e: u32) { e / 4 % 2 == 1 }
  predicate WriteThrough(e: u32) { e / 8 % 2 == 1 }
  predicate NoCache(e: u32) { e / 16 % 2 == 1 }
  predicate Huge(e: u32) { e / 128 % 2 == 1 }

  /** `e & 0xFFFFF000` and `e & 0xFFC00000` */
  function Frame(e: u32): int { e / 4096 * 4096 }
  function BigFrame(e: u32): (r: int) ensures 0 <= r <= e { e / BIG * BIG }

  function Dir(v: u32): (d: nat) ensures d < 1024 { v / BIG }
  function Tab(v: u32): (t: nat) ensures t < 1024 { v / 4096 % 1024 }

  /** What a virtual address maps to, and the effective flags. */
  datatype Mapping = Mapping(phys: int, writable: bool, user: bool, writeThrough: bool, noCache: bool)

  type Directory = s: seq<u32> | |s| == 1024 witness seq(1024, i => 0)

  predicate EntryInMem(m: Mem, e: u32, t: nat) { InMem(m, Frame(e) + 4 * t) }

  /** The walk of the paging hardware. */
  function Translate(pd: Directory, m: Mem, v: u32): Option<Mapping>
    requires Present(pd[Dir(v)]) && !Huge(pd[Dir(v)]) ==> EntryInMem(m, pd[Dir(v)], Tab(v))
  {
    var e := pd[Dir(v)];
    if !Present(e) then None
    else if Huge(e) then
      Some(Mapping(BigFrame(e) + v % BIG, Writable(e), User(e), WriteThrough(e), NoCache(e)))
    else
      var p := Ld(m, Frame(e) + 4 * Tab(v));
      if !Present(p) then None
      else Some(Mapping(Frame(p) + v % 4096, Writable(e) && Writable(p), User(e) && User(p), WriteThrough(p), NoCache(p)))
  }

  predicate IsTable(e: u32) { Present(e) && !Huge(e) }

  /** A directory whose tables are distinct frames in use. */
  ghost predicate DirectoryOk(pd: Directory, m: Mem, bits: Bitmap) {
    && 4 * |m| >= MAX_PAGES * PAGE_SIZE
    && (forall d :: 0 <= d < 1024 && IsTable(pd[d]) ==> TableOk(pd[d], bits))
    && (forall d, e :: 0 <= d < e < 1024 && IsTable(pd[d]) && IsTable(pd[e]) ==> Frame(pd[d]) != Frame(pd[e]))
  }

  predicate TableOk(e: u32, bits: Bitmap) {
    Writable(e) && !User(e) && e / 4096 < MAX_PAGES && Used(bits, e / 4096)
  }

  lemma TableWord(pd: Directory, m: Mem, bits: Bitmap, d: nat, t: nat)
    requires DirectoryOk(pd, m, bits) && d < 1024 && t < 1024 && IsTable(pd[d])
    ensures EntryInMem(m, pd[d], t)
  {
    assert TableOk(pd[d], bits);
  }

  lemma TableWords(pd: Directory, m: Mem, bits: Bitmap, v: u32)
    requires DirectoryOk(pd, m, bits)
    ensures IsTable(pd[Dir(v)]) ==> EntryInMem(m, pd[Dir(v)], Tab(v))
  {
    if IsTable(pd[Dir(v)]) { TableWord(pd, m, bits, Dir(v), Tab(v)); }
  }

  /** Two different entries of tables are different words. */
  lemma WordsDiffer(pd: Directory, m: Mem, bits: Bitmap, d: nat, t: nat, d': nat, t': nat)
    requires DirectoryOk(pd, m, bits) && d < 1024 && t < 1024 && d' < 1024 && t' < 1024
    requires IsTable(pd[d]) && IsTable(pd[d']) && (d != d' || t != t')
    ensures Frame(pd[d]) + 4 * t != Frame(pd[d']) + 4 * t'
  {
    hide TableOk, Present, Huge, Frame;
    if d < d' { assert Frame(pd[d]) != Frame(pd[d']); }
    if d' < d { assert Frame(pd[d']) != Frame(pd[d]); }
    FramesFar(pd[d], pd[d']);
  }

  lemma FramesFar(e: u32, f: u32)
    ensures Frame(e) == Frame(f) || Frame(e) + 4096 <= Frame(f) || Frame(f) + 4096 <= Frame(e)
  {
    var a, b := e / 4096, f / 4096;
    assert Frame(e) == 4096 * a && Frame(f) == 4096 * b;
  }

  /** `(phys & 0xFFFFF000) | (flags | PTE_PRESENT)` for flags below the address bits. */
  function MakeEntry(phys: u32, flags: u32): (e: u32)
    requires flags < 4096
  {
    Frame(phys) + if flags % 2 == 1 then flags else flags + 1
  }

  /** Adding a frame address leaves the flag bits. */
  lemma FlagBits(e: u32, q: int, f: int)
    requires e == 4096 * q + f && 0 <= f < 4096
    ensures Frame(e) == 4096 * q
    ensures e % 2 == f % 2 && e / 2 % 2 == f / 2 % 2 && e / 4 % 2 == f / 4 % 2
    ensures e / 8 % 2 == f / 8 % 2 && e / 16 % 2 == f / 16 % 2 && e / 128 % 2 == f / 128 % 2
  {
    assert Frame(e) == 4096 * q by { FrameOf(q, f); }
    assert e % 2 == f % 2 by { Even(2048 * q, f); }
    assert e / 128 % 2 == f / 128 % 2 by { HugeBit(q, f); }
    LowBits(q, f);
    CacheBits(q, f);
  }

  lemma FrameOf(q: int, f: int)
    requires 0 <= f < 4096
    ensures (4096 * q + f) / 4096 == q
  {
  }

  lemma HugeBit(q: int, f: int)
    ensures (4096 * q + f) / 128 % 2 == f / 128 % 2
  {
    Div128(32 * q, f);
    Even(16 * q, f / 128);
  }

  lemma LowBits(q: int, f: int)
    ensures (4096 * q + f) / 2 % 2 == f / 2 % 2 && (4096 * q + f) / 4 % 2 == f / 4 % 2
  {
    Div2(2048 * q, f);
    Even(1024 * q, f / 2);
    Div4(1024 * q, f);
    Even(512 * q, f / 4);
  }

  lemma CacheBits(q: int, f: int)
    ensures (4096 * q + f) / 8 % 2 == f / 8 % 2 && (4096 * q + f) / 16 % 2 == f / 16 % 2
  {
    Div8(512 * q, f);
    Even(256 * q, f / 8);
    Div16(256 * q, f);
    Even(128 * q, f / 16);
  }

  lemma EntryFields(phys: u32, flags: u32)
    requires flags < 4096
    ensures var e := MakeEntry(phys, flags);
      && Present(e) && Frame(e) == Frame(phys) && (Writable(e) <==> Writable(flags)) && (User(e) <==> User(flags))
      && (WriteThrough(e) <==> WriteThrough(flags)) && (NoCache(e) <==> NoCache(flags)) && (Huge(e) <==> Huge(flags))
  {
    var f := if flags % 2 == 1 then flags else flags + 1;
    FlagBits(MakeEntry(phys, flags), phys / 4096, f);
    if flags % 2 == 0 { OddUp(flags); }
  }

  /** Setting the lowest bit leaves the others. */
  lemma OddUp(f: u32)
    requires f % 2 == 0 && f + 1 < WORD
    ensures (f + 1) / 2 == f / 2 && (f + 1) / 4 == f / 4 && (f + 1) / 8 == f / 8 && (f + 1) / 16 == f / 16 && (f + 1) / 128 == f / 128
    ensures (f + 1) % 2 == 1
  {
    var g := f / 2;
    assert (f + 1) / 2 == g;
    assert (f + 1) / 4 == f / 4 by { Halved(f, 2); Halved(f + 1, 2); }
    assert (f + 1) / 8 == f / 8 by { Halved(f, 4); Halved(f + 1, 4); }
    assert (f + 1) / 16 == f / 16 by { Halved(f, 8); Halved(f + 1, 8); }
    assert (f + 1) / 128 == f / 128 by { Halved(f, 64); Halved(f + 1, 64); }
  }

  lemma Halved(f: int, n: int)
    requires f >= 0 && (n == 2 || n == 4 || n == 8 || n == 64)
    ensures f / (2 * n) == f / 2 / n
  {
    if n == 2 { assert f / 4 == f / 2 / 2; } else if n == 4 { assert f / 8 == f / 2 / 4; }
    else if n == 8 { assert f / 16 == f / 2 / 8; } else { assert f / 128 == f / 2 / 64; }
  }

  /** Virtual addresses that share a page share directory index, table index and page base. */
  lemma SamePage(v: u32, w: u32)
    ensures v / 4096 == w / 4096 <==> Dir(v) == Dir(w) && Tab(v) == Tab(w)
  {
    assert v / BIG == v / 4096 / 1024 && w / BIG == w / 4096 / 1024;
  }

  /** Entry t of a table that replaces the 4MB page e. */
  function SplitEntry(e: u32, t: nat): (p: u32)
    requires t < 1024
  {
    BigFrame(e) + 4096 * t + e % 32
  }

  lemma SplitEntryFields(e: u32, t: nat, v: u32)
    requires t < 1024
    ensures var p := SplitEntry(e, t);
      && Frame(p) == BigFrame(e) + 4096 * t && (Present(p) <==> Present(e)) && (Writable(p) <==> Writable(e))
      && (User(p) <==> User(e)) && (WriteThrough(p) <==> WriteThrough(e)) && (NoCache(p) <==> NoCache(e))
    ensures v % BIG == 4096 * Tab(v) + v % 4096
  {
    FlagBits(SplitEntry(e, t), 1024 * (e / BIG) + t, e % 32);
    LowFive(e);
    assert v == 4096 * (v / 4096) + v % 4096 && v / 4096 == 1024 * (v / BIG) + Tab(v) by { assert v / BIG == v / 4096 / 1024; }
  }

  lemma LowFive(e: u32)
    ensures e % 2 == e % 32 % 2 && e / 2 % 2 == e % 32 / 2 % 2 && e / 4 % 2 == e % 32 / 4 % 2
    ensures e / 8 % 2 == e % 32 / 8 % 2 && e / 16 % 2 == e % 32 / 16 % 2
  {
    assert e == 32 * (e / 32) + e % 32;
    LowThree(e / 32, e % 32);
    NextTwo(e / 32, e % 32);
  }

  lemma LowThree(q: int, f: int)
    ensures var e := 32 * q + f; e % 2 == f % 2 && e / 2 % 2 == f / 2 % 2 && e / 4 % 2 == f / 4 % 2
  {
    Even(16 * q, f);
    Div2(16 * q, f);
    Even(8 * q, f / 2);
    Div4(8 * q, f);
    Even(4 * q, f / 4);
  }

  lemma NextTwo(q: int, f: int)
    ensures var e := 32 * q + f; e / 8 % 2 == f / 8 % 2 && e / 16 % 2 == f / 16 % 2
  {
    Div8(4 * q, f);
    Even(2 * q, f / 8);
    Div16(2 * q, f);
    Even(q, f / 16);
  }

  /** A table entry made of a frame and PRESENT and WRITABLE. */
  lemma TableEntryFields(frame: u32)
    requires frame % 4096 == 0 && frame + 3 < WORD
    ensures var e: u32 := frame + 3; IsTable(e) && Writable(e) && !User(e) && Frame(e) == frame && e / 4096 == frame / 4096
  {
    FlagBits(frame + 3, frame / 4096, 3);
  }

  /** The mapping of every address is untouched where neither its directory entry nor its
      table word changed. */
  lemma SameTranslation(pd: Directory, m: Mem, pd': Directory, m': Mem, v: u32)
    requires pd'[Dir(v)] == pd[Dir(v)] && |m'| == |m|
    requires IsTable(pd[Dir(v)]) ==> EntryInMem(m, pd[Dir(v)], Tab(v))
    requires IsTable(pd[Dir(v)]) ==>
      Ld(m', Frame(pd[Dir(v)]) + 4 * Tab(v)) == Ld(m, Frame(pd[Dir(v)]) + 4 * Tab(v))
    ensures Translate(pd', m', v) == Translate(pd, m, v)
  {
  }

  /** A mapping with its user flag cleared. */
  function WithoutUser(m: Option<Mapping>): Option<Mapping> {
    match m case None => None case Some(x) => Some(x.(user := false))
  }

  /** More frames in use, same tables. */
  lemma MoreFrames(pd: Directory, m: Mem, a: Bitmap, b: Bitmap, page: u32)
    requires DirectoryOk(pd, m, a)
    requires b == a || (page / PAGE_SIZE < MAX_PAGES && b == SetPage(a, page / PAGE_SIZE))
    ensures DirectoryOk(pd, m, b)
  {
    hide Used, SetPage, Writable, User, Present, Huge;
    if b != a { SetPageUsed(a, page / PAGE_SIZE); }
    forall d | 0 <= d < 1024 && IsTable(pd[d]) ensures TableOk(pd[d], b) { assert TableOk(pd[d], a); }
  }

  /** The word at a lies in a page table of the directory. */
  ghost predicate InTables(pd: Directory, a: int) {
    exists d :: 0 <= d < 1024 && InTable(pd[d], a)
  }

  predicate InTable(e: u32, a: int) { IsTable(e) && Frame(e) <= a < Frame(e) + PAGE_SIZE }

  /** Tables stay where they are, and a new one lies in a frame that was free. */
  ghost predicate TablesKept(pd: Directory, bits: Bitmap, pd': Directory, bits': Bitmap) {
    && UsedKept(bits, bits')
    && forall d :: 0 <= d < 1024 ==> TableKept(pd[d], pd'[d], bits)
  }

  predicate TableKept(e: u32, e': u32, bits: Bitmap) {
    (IsTable(e) ==> e' == e) && (IsTable(e') ==> e' == e || !InUse(bits, Frame(e')))
  }

  /** No word outside the page tables differs. */
  ghost predicate TablesOnly(m: Mem, m': Mem, pd: Directory) {
    |m'| == |m| && forall a {:trigger Ld(m', a)} :: InMem(m, a) && !InTables(pd, a) ==> Ld(m', a) == Ld(m, a)
  }

  /** Nothing is written but page tables, and those are old ones or frames that were free. */
  ghost predicate Confined(m: Mem, pd: Directory, bits: Bitmap, m': Mem, pd': Directory, bits': Bitmap) {
    TablesOnly(m, m', pd') && TablesKept(pd, bits, pd', bits')
  }

  lemma ConfinedTwice(m0: Mem, pd0: Directory, b0: Bitmap, m1: Mem, pd1: Directory, b1: Bitmap, m2: Mem, pd2: Directory, b2: Bitmap)
    requires Confined(m0, pd0, b0, m1, pd1, b1) && Confined(m1, pd1, b1, m2, pd2, b2)
    ensures Confined(m0, pd0, b0, m2, pd2, b2)
  {
    hide Ld, WordAt, Used, IsTable, Frame;
    forall d | 0 <= d < 1024 ensures TableKept(pd0[d], pd2[d], b0) {
      assert TableKept(pd0[d], pd1[d], b0) && TableKept(pd1[d], pd2[d], b1);
    }
    forall a | InMem(m0, a) && !InTables(pd2, a) ensures InMem(m2, a) && Ld(m2, a) == Ld(m0, a) {
      if InTables(pd1, a) { OldTables(pd1, b1, pd2, b2, a); }
      assert Ld(m1, a) == Ld(m0, a);
    }
  }

  lemma OldTables(pd: Directory, bits: Bitmap, pd': Directory, bits': Bitmap, a: int)
    requires TablesKept(pd, bits, pd', bits') && InTables(pd, a)
    ensures InTables(pd', a)
  {
    hide Used, InUse, Frame, Present, Huge;
    var d :| 0 <= d < 1024 && InTable(pd[d], a);
    assert TableKept(pd[d], pd'[d], bits);
    assert InTable(pd'[d], a);
  }

  lemma ConfinedFrames(m: Mem, pd: Directory, a: Bitmap, b: Bitmap, page: u32)
    requires b == a || (page / PAGE_SIZE < MAX_PAGES && b == SetPage(a, page / PAGE_SIZE))
    ensures Confined(m, pd, a, m, pd, b)
  {
    hide Used, SetPage, IsTable;
    if b != a { SetPageUsed(a, page / PAGE_SIZE); }
  }

  lemma ConfinedTable(m: Mem, pd: Directory, bits: Bitmap, m': Mem, pd': Directory, bits': Bitmap, d: nat, pt: u32)
    requires d < 1024 && pt % PAGE_SIZE == 0 && pt / PAGE_SIZE < MAX_PAGES && pt + 3 < WORD
    requires !IsTable(pd[d]) && pd' == pd[d := pt + 3] && RangeOnly(m, m', pt, pt + PAGE_SIZE)
    requires !Used(bits, pt / PAGE_SIZE) && bits' == SetPage(bits, pt / PAGE_SIZE)
    ensures Confined(m, pd, bits, m', pd', bits')
  {
    hide Used, SetPage, IsTable, Frame, Ld, WordAt;
    SetPageUsed(bits, pt / PAGE_SIZE);
    TableEntryFields(pt);
    forall a | InMem(m, a) && !InTables(pd', a) ensures Ld(m', a) == Ld(m, a) { assert !InTable(pd'[d], a); }
  }

  lemma ConfinedEntry(m: Mem, pd: Directory, bits: Bitmap, d: nat, t: nat, v: u32)
    requires d < 1024 && t < 1024 && IsTable(pd[d]) && EntryInMem(m, pd[d], t)
    ensures Confined(m, pd, bits, St(m, Frame(pd[d]) + 4 * t, v), pd, bits)
  {
    hide Used, IsTable, Frame, Ld, St, WordAt;
    assert InTable(pd[d], Frame(pd[d]) + 4 * t);
  }

  /** A frame that was free is memory, and no table. */
  lemma NewTable(pd: Directory, m: Mem, bits: Bitmap, d: nat, pt: u32)
    requires DirectoryOk(pd, m, bits) && d < 1024 && pt % PAGE_SIZE == 0 && 0 < pt && pt / PAGE_SIZE < MAX_PAGES
    requires !Used(bits, pt / PAGE_SIZE)
    ensures pt + PAGE_SIZE <= 4 * |m| && pt + 3 < WORD
    ensures forall e :: 0 <= e < 1024 && IsTable(pd[e]) ==> Frame(pd[e]) + PAGE_SIZE <= pt || pt + PAGE_SIZE <= Frame(pd[e])
  {
    hide Used, Writable, User, Present, Huge;
    forall e | 0 <= e < 1024 && IsTable(pd[e]) ensures Frame(pd[e]) + PAGE_SIZE <= pt || pt + PAGE_SIZE <= Frame(pd[e]) {
      assert TableOk(pd[e], bits);
      FramesApart(pd[e], pt);
    }
  }

  lemma FramesApart(e: u32, pt: u32)
    requires pt % PAGE_SIZE == 0 && e / 4096 != pt / PAGE_SIZE
    ensures Frame(e) + PAGE_SIZE <= pt || pt + PAGE_SIZE <= Frame(e)
  {
    assert pt == PAGE_SIZE * (pt / PAGE_SIZE);
  }

  lemma TableSlot(m: Mem, pt: int, i: nat)
    requires pt % PAGE_SIZE == 0 && 0 <= pt && pt + PAGE_SIZE <= 4 * |m| && i < 1024
    ensures InMem(m, pt + 4 * i)
  {
  }

  lemma SplitEntryIs(e: u32, i: nat, base: int, flags: int)
    requires i < 1024 && base == BigFrame(e) && flags == e % 32
    ensures base + i * PAGE_SIZE + flags == SplitEntry(e, i) && 0 <= base + i * PAGE_SIZE + flags < WORD
  {
  }

  lemma ZeroFrame(bits: Bitmap)
    ensures Used(SetPage(bits, 0), 0)
  {
    SetPageUsed(bits, 0);
  }

  /** Slot t of the new table has been filled in. */
  predicate SlotIs(m: Mem, e: u32, pt: int, t: nat)
    requires t < 1024
  {
    InMem(m, pt + 4 * t) && Ld(m, pt + 4 * t) == SplitEntry(e, t)
  }

  lemma FilledNext(m: Mem, m': Mem, e: u32, pt: int, i: nat)
    requires i < 1024 && InMem(m, pt + 4 * i) && forall t :: 0 <= t < i ==> SlotIs(m, e, pt, t)
    requires m' == St(m, pt + 4 * i, SplitEntry(e, i))
    ensures forall t :: 0 <= t < i + 1 ==> SlotIs(m', e, pt, t)
  {
    hide Ld, St, SplitEntry;
    forall t | 0 <= t < i + 1 ensures SlotIs(m', e, pt, t) {
      if t < i { assert SlotIs(m, e, pt, t); }
    }
  }

  /** The directory after a split: still sound, and every address translates as before. */
  lemma SplitDirectory(pd: Directory, m: Mem, bits: Bitmap, d: nat, pt: u32, pd': Directory, m': Mem, bits': Bitmap)
    requires DirectoryOk(pd, m, bits) && d < 1024 && Huge(pd[d])
    requires pt % PAGE_SIZE == 0 && 0 < pt && pt / PAGE_SIZE < MAX_PAGES && pt + 3 < WORD
    requires !Used(bits, pt / PAGE_SIZE) && bits' == SetPage(bits, pt / PAGE_SIZE)
    requires pd' == pd[d := pt + 3] && RangeOnly(m, m', pt, pt + PAGE_SIZE)
    requires forall t :: 0 <= t < 1024 ==> SlotIs(m', pd[d], pt, t)
    ensures DirectoryOk(pd', m', bits')
    ensures forall v: u32 ::
      (IsTable(pd[Dir(v)]) ==> EntryInMem(m, pd[Dir(v)], Tab(v))) && (IsTable(pd'[Dir(v)]) ==> EntryInMem(m', pd'[Dir(v)], Tab(v)))
      && Translate(pd', m', v) == if Dir(v) == d then WithoutUser(Translate(pd, m, v)) else Translate(pd, m, v)
  {
    hide Used, SetPage, Translate, DirectoryOk, Ld, St, WordAt, SplitEntry, Huge, Present, Writable, User, NoCache, WriteThrough, Frame;
    NewTable(pd, m, bits, d, pt);
    TableEntryFields(pt);
    DirectoryGrows(pd, m, bits, d, pt, pd', m', bits');
    forall v: u32
      ensures (IsTable(pd[Dir(v)]) ==> EntryInMem(m, pd[Dir(v)], Tab(v))) && (IsTable(pd'[Dir(v)]) ==> EntryInMem(m', pd'[Dir(v)], Tab(v)))
        && Translate(pd', m', v) == if Dir(v) == d then WithoutUser(Translate(pd, m, v)) else Translate(pd, m, v)
    {
      TableWords(pd, m, bits, v);
      TableWords(pd', m', bits', v);
      if Dir(v) == d {
        SplitEntryFields(pd[d], Tab(v), v);
        assert SlotIs(m', pd[d], pt, Tab(v));
        SplitMeans(pd, m, pd', m', v, pt);
      } else {
        if IsTable(pd[Dir(v)]) { OtherTable(m, m', pd[Dir(v)], Tab(v), pt); }
        SameTranslation(pd, m, pd', m', v);
      }
    }
  }

  lemma OtherTable(m: Mem, m': Mem, e: u32, t: nat, pt: int)
    requires RangeOnly(m, m', pt, pt + PAGE_SIZE) && EntryInMem(m, e, t) && t < 1024
    requires Frame(e) + PAGE_SIZE <= pt || pt + PAGE_SIZE <= Frame(e)
    ensures Ld(m', Frame(e) + 4 * t) == Ld(m, Frame(e) + 4 * t)
  {
    hide Ld;
  }

  lemma SplitMeans(pd: Directory, m: Mem, pd': Directory, m': Mem, v: u32, pt: u32)
    requires Huge(pd[Dir(v)]) && pd'[Dir(v)] == pt + 3 && IsTable(pt + 3) && Writable(pt + 3) && !User(pt + 3) && Frame(pt + 3) == pt
    requires EntryInMem(m', pd'[Dir(v)], Tab(v))
    requires var e, p := pd[Dir(v)], Ld(m', pt + 4 * Tab(v));
      && Frame(p) == BigFrame(e) + 4096 * Tab(v) && (Present(p) <==> Present(e)) && (Writable(p) <==> Writable(e))
      && (WriteThrough(p) <==> WriteThrough(e)) && (NoCache(p) <==> NoCache(e))
    requires v % BIG == 4096 * Tab(v) + v % 4096
    ensures Translate(pd', m', v) == WithoutUser(Translate(pd, m, v))
  {
    hide Ld, Present, Writable, User, WriteThrough, NoCache, Frame, BigFrame, Huge, WordAt, Tab, Dir;
  }

  lemma DirectoryGrows(pd: Directory, m: Mem, bits: Bitmap, d: nat, pt: u32, pd': Directory, m': Mem, bits': Bitmap)
    requires DirectoryOk(pd, m, bits) && d < 1024 && |m'| == |m| && pt + 3 < WORD
    requires pt % PAGE_SIZE == 0 && pt / PAGE_SIZE < MAX_PAGES && bits' == SetPage(bits, pt / PAGE_SIZE)
    requires !Used(bits, pt / PAGE_SIZE) && pd' == pd[d := pt + 3]
    requires Writable(pt + 3) && !User(pt + 3) && Frame(pt + 3) == pt && (pt + 3) / 4096 == pt / 4096
    requires forall e :: 0 <= e < 1024 && IsTable(pd[e]) ==> Frame(pd[e]) + PAGE_SIZE <= pt || pt + PAGE_SIZE <= Frame(pd[e])
    ensures DirectoryOk(pd', m', bits')
  {
    hide Used, SetPage, Writable, User, Present, Huge, Frame;
    SetPageUsed(bits, pt / PAGE_SIZE);
    forall e | 0 <= e < 1024 && IsTable(pd'[e]) ensures TableOk(pd'[e], bits') {
      if e != d { assert TableOk(pd[e], bits); }
    }
    forall e, f | 0 <= e < f < 1024 && IsTable(pd'[e]) && IsTable(pd'[f]) ensures Frame(pd'[e]) != Frame(pd'[f]) {
      if e != d && f != d { assert Frame(pd[e]) != Frame(pd[f]); }
    }
  }

  predicate ZeroSlot(m: Mem, pt: int, t: nat) {
    InMem(m, pt + 4 * t) && Ld(m, pt + 4 * t) == 0
  }

  lemma ClearedNext(m: Mem, m': Mem, pt: int, i: nat)
    requires InMem(m, pt + 4 * i) && m' == St(m, pt + 4 * i, 0) && forall t :: 0 <= t < i ==> ZeroSlot(m, pt, t)
    ensures forall t :: 0 <= t < i + 1 ==> ZeroSlot(m', pt, t)
  {
    hide Ld, St;
    forall t | 0 <= t < i + 1 ensures ZeroSlot(m', pt, t) {
      if t < i { assert ZeroSlot(m, pt, t); }
    }
  }

  /** What mapping a page to a frame with some flags gives an address of the page. */
  function PageMapping(phys: u32, flags: u32, v: u32): Mapping {
    Mapping(Frame(phys) + v % 4096, Writable(flags), false, WriteThrough(flags), NoCache(flags))
  }

  /** Where no directory entry is present, no address of the slot is mapped. */
  lemma SamePageMaps(pd: Directory, m: Mem, virt: u32)
    ensures forall v: u32 :: v / 4096 == virt / 4096 ==> Dir(v) == Dir(virt)
    ensures forall v: u32 :: Dir(v) == Dir(virt) && !Present(pd[Dir(virt)]) ==> Translate(pd, m, v) == None
  {
    forall v: u32 | v / 4096 == virt / 4096 ensures Dir(v) == Dir(virt) { SamePage(v, virt); }
  }

  /** A slot that was not present gets an empty table: nothing is mapped by it. */
  lemma EmptyDirectory(pd: Directory, m: Mem, bits: Bitmap, d: nat, pt: u32, pd': Directory, m': Mem, bits': Bitmap)
    requires DirectoryOk(pd, m, bits) && d < 1024 && !Present(pd[d])
    requires pt % PAGE_SIZE == 0 && 0 < pt && pt / PAGE_SIZE < MAX_PAGES && pt + 3 < WORD
    requires !Used(bits, pt / PAGE_SIZE) && bits' == SetPage(bits, pt / PAGE_SIZE)
    requires pd' == pd[d := pt + 3] && RangeOnly(m, m', pt, pt + PAGE_SIZE)
    requires forall t :: 0 <= t < 1024 ==> ZeroSlot(m', pt, t)
    ensures DirectoryOk(pd', m', bits')
    ensures forall v: u32 ::
      (IsTable(pd[Dir(v)]) ==> EntryInMem(m, pd[Dir(v)], Tab(v))) && (IsTable(pd'[Dir(v)]) ==> EntryInMem(m', pd'[Dir(v)], Tab(v)))
      && Translate(pd', m', v) == Translate(pd, m, v)
  {
    hide Used, SetPage, Translate, DirectoryOk, Ld, St, WordAt, Huge, Present, Writable, User, Frame;
    NewTable(pd, m, bits, d, pt);
    TableEntryFields(pt);
    DirectoryGrows(pd, m, bits, d, pt, pd', m', bits');
    forall v: u32
      ensures (IsTable(pd[Dir(v)]) ==> EntryInMem(m, pd[Dir(v)], Tab(v))) && (IsTable(pd'[Dir(v)]) ==> EntryInMem(m', pd'[Dir(v)], Tab(v)))
        && Translate(pd', m', v) == Translate(pd, m, v)
    {
      TableWords(pd, m, bits, v);
      TableWords(pd', m', bits', v);
      if Dir(v) == d {
        assert ZeroSlot(m', pt, Tab(v));
        EmptyMeans(pd, m, pd', m', v, pt);
      } else {
        if IsTable(pd[Dir(v)]) { OtherTable(m, m', pd[Dir(v)], Tab(v), pt); }
        SameTranslation(pd, m, pd', m', v);
      }
    }
  }

  lemma EmptyMeans(pd: Directory, m: Mem, pd': Directory, m': Mem, v: u32, pt: u32)
    requires !Present(pd[Dir(v)]) && pd'[Dir(v)] == pt + 3 && IsTable(pt + 3) && Frame(pt + 3) == pt
    requires EntryInMem(m', pd'[Dir(v)], Tab(v)) && Ld(m', pt + 4 * Tab(v)) == 0
    ensures Translate(pd', m', v) == None == Translate(pd, m, v)
  {
    hide Ld, Frame, Huge, WordAt, Tab, Dir;
  }

  /** Writing one table entry maps the addresses of its page and no others. */
  lemma WriteEntry(pd: Directory, m: Mem, bits: Bitmap, virt: u32, phys: u32, flags: u32, m': Mem)
    requires DirectoryOk(pd, m, bits) && IsTable(pd[Dir(virt)]) && EntryInMem(m, pd[Dir(virt)], Tab(virt)) && flags < 4096
    requires m' == St(m, Frame(pd[Dir(virt)]) + 4 * Tab(virt), MakeEntry(phys, flags))
    ensures DirectoryOk(pd, m', bits)
    ensures forall v: u32 ::
      (IsTable(pd[Dir(v)]) ==> EntryInMem(m, pd[Dir(v)], Tab(v)) && EntryInMem(m', pd[Dir(v)], Tab(v)))
      && Translate(pd, m', v) == if v / 4096 == virt / 4096 then Some(PageMapping(phys, flags, v)) else Translate(pd, m, v)
  {
    hide Used, Translate, Ld, St, WordAt, Huge, Present, Writable, User, Frame, MakeEntry, WriteThrough, NoCache;
    EntryFields(phys, flags);
    assert DirectoryOk(pd, m', bits);
    forall v: u32
      ensures (IsTable(pd[Dir(v)]) ==> EntryInMem(m, pd[Dir(v)], Tab(v)) && EntryInMem(m', pd[Dir(v)], Tab(v)))
        && Translate(pd, m', v) == if v / 4096 == virt / 4096 then Some(PageMapping(phys, flags, v)) else Translate(pd, m, v)
    {
      TableWords(pd, m, bits, v);
      TableWords(pd, m', bits, v);
      SamePage(v, virt);
      if v / 4096 == virt / 4096 {
        assert TableOk(pd[Dir(v)], bits);
        EntryMeans(pd, m', v, phys, flags);
      } else {
        if IsTable(pd[Dir(v)]) { WordsDiffer(pd, m, bits, Dir(v), Tab(v), Dir(virt), Tab(virt)); }
        SameTranslation(pd, m, pd, m', v);
      }
    }
  }

  lemma EntryMeans(pd: Directory, m: Mem, v: u32, phys: u32, flags: u32)
    requires var e := pd[Dir(v)]; IsTable(e) && Writable(e) && !User(e) && EntryInMem(m, e, Tab(v))
    requires flags < 4096 && Ld(m, Frame(pd[Dir(v)]) + 4 * Tab(v)) == MakeEntry(phys, flags)
    ensures Translate(pd, m, v) == Some(PageMapping(phys, flags, v))
  {
    hide Ld, WordAt, Huge, Present, Writable, User, Frame, MakeEntry, WriteThrough, NoCache, Tab, Dir;
    EntryFields(phys, flags);
  }

  /** Clearing one table entry unmaps the addresses of its page and no others. */
  lemma ClearEntry(pd: Directory, m: Mem, bits: Bitmap, virt: u32, m': Mem)
    requires DirectoryOk(pd, m, bits) && IsTable(pd[Dir(virt)]) && EntryInMem(m, pd[Dir(virt)], Tab(virt))
    requires m' == St(m, Frame(pd[Dir(virt)]) + 4 * Tab(virt), 0)
    ensures DirectoryOk(pd, m', bits)
    ensures forall v: u32 ::
      (IsTable(pd[Dir(v)]) ==> EntryInMem(m, pd[Dir(v)], Tab(v)) && EntryInMem(m', pd[Dir(v)], Tab(v)))
      && Translate(pd, m', v) == if v / 4096 == virt / 4096 then None else Translate(pd, m, v)
  {
    hide Used, Translate, Ld, St, WordAt, Huge, Present, Writable, User, Frame;
    assert DirectoryOk(pd, m', bits);
    forall v: u32
      ensures (IsTable(pd[Dir(v)]) ==> EntryInMem(m, pd[Dir(v)], Tab(v)) && EntryInMem(m', pd[Dir(v)], Tab(v)))
        && Translate(pd, m', v) == if v / 4096 == virt / 4096 then None else Translate(pd, m, v)
    {
      TableWords(pd, m, bits, v);
      TableWords(pd, m', bits, v);
      SamePage(v, virt);
      if v / 4096 == virt / 4096 {
        ClearMeans(pd, m', v);
      } else {
        if IsTable(pd[Dir(v)]) { WordsDiffer(pd, m, bits, Dir(v), Tab(v), Dir(virt), Tab(virt)); }
        SameTranslation(pd, m, pd, m', v);
      }
    }
  }

  lemma ClearMeans(pd: Directory, m: Mem, v: u32)
    requires IsTable(pd[Dir(v)]) && EntryInMem(m, pd[Dir(v)], Tab(v)) && Ld(m, Frame(pd[Dir(v)]) + 4 * Tab(v)) == 0
    ensures Translate(pd, m, v) == None
  {
    hide Ld, WordAt, Huge, Frame, Tab, Dir;
  }

  // ---- the directory vmm_init builds

  /** The four tables in the kernel's own memory: distinct frames in use. */
  ghost predicate StaticTables(tables: seq<u32>, bits: Bitmap) {
    && |tables| == 4
    && (forall t :: 0 <= t < 4 ==> StaticTable(tables[t], bits))
    && (forall t, u :: 0 <= t < u < 4 ==> tables[t] / PAGE_SIZE != tables[u] / PAGE_SIZE)
  }

  predicate StaticTable(pt: u32, bits: Bitmap) {
    pt % PAGE_SIZE == 0 && 0 < pt && pt / PAGE_SIZE < MAX_PAGES && Used(bits, pt / PAGE_SIZE)
  }

  predicate VgaWindow(phys: int) { 0xA0000 <= phys < 0xC0000 }

  function InitFlags(phys: int): int { if VgaWindow(phys) then P + W + WT + NC else P + W }

  function InitEntry(t: nat, p: nat): (e: u32)
    requires t < 4 && p < 1024
  {
    (t * 1024 + p) * PAGE_SIZE + InitFlags((t * 1024 + p) * PAGE_SIZE)
  }

  predicate InitSlot(m: Mem, pt: int, t: nat, p: nat)
    requires t < 4 && p < 1024
  {
    InMem(m, pt + 4 * p) && Ld(m, pt + 4 * p) == InitEntry(t, p)
  }

  function BigEntry(d: nat): (e: u32)
    requires d < 1024
  {
    d * BIG + P + W + PS
  }

  /** A virtual address mapped to itself by the kernel; the VGA window is not cached. */
  function IdentityMapping(v: u32): Mapping { Mapping(v, true, false, VgaWindow(v), VgaWindow(v)) }

  lemma InitEntryFields(t: nat, p: nat)
    requires t < 4 && p < 1024
    ensures var e := InitEntry(t, p);
      && Present(e) && Frame(e) == (t * 1024 + p) * PAGE_SIZE && Writable(e) && !User(e)
      && (WriteThrough(e) <==> VgaWindow(Frame(e))) && (NoCache(e) <==> VgaWindow(Frame(e)))
  {
    FlagBits(InitEntry(t, p), t * 1024 + p, InitFlags((t * 1024 + p) * PAGE_SIZE));
  }

  lemma BigEntryFields(d: nat)
    requires d < 1024
    ensures var e := BigEntry(d);
      Present(e) && Huge(e) && Writable(e) && !User(e) && !WriteThrough(e) && !NoCache(e) && BigFrame(e) == d * BIG
  {
    FlagBits(BigEntry(d), 1024 * d, P + W + PS);
  }

  lemma VgaPage(v: u32)
    ensures VgaWindow(v / 4096 * 4096) <==> VgaWindow(v)
    ensures v == v / BIG * BIG + v % BIG && v == v / 4096 * 4096 + v % 4096 && v / 4096 == 1024 * Dir(v) + Tab(v)
  {
    assert v / BIG == v / 4096 / 1024;
  }

  lemma StaticApart(m: Mem, m': Mem, tables: seq<u32>, bits: Bitmap, d: nat, t: nat, p: nat)
    requires StaticTables(tables, bits) && d < t < 4 && p < 1024
    requires RangeOnly(m, m', tables[t], tables[t] + PAGE_SIZE) && InitSlot(m, tables[d], d, p)
    ensures InitSlot(m', tables[d], d, p)
  {
    hide Used, Ld, InitEntry;
    assert StaticTable(tables[d], bits) && StaticTable(tables[t], bits);
    FramesApart(tables[d], tables[t]);
    assert Frame(tables[d]) == tables[d];
  }

  lemma InitIsOk(pd: Directory, m: Mem, tables: seq<u32>, bits: Bitmap)
    requires 4 * |m| >= MAX_PAGES * PAGE_SIZE && StaticTables(tables, bits)
    requires forall d :: 0 <= d < 4 ==> StaticTable(tables[d], bits) && tables[d] + 3 < WORD && pd[d] == tables[d] + 3
    requires forall d :: 4 <= d < 1024 ==> pd[d] == BigEntry(d)
    ensures DirectoryOk(pd, m, bits)
    ensures forall d :: 0 <= d < 1024 ==>
      Present(pd[d]) && (Huge(pd[d]) <==> d >= 4) && !User(pd[d]) && (d < 4 ==> Frame(pd[d]) == tables[d])
  {
    hide Used, Present, Huge, User, Writable, Frame, BigEntry;
    forall d | 0 <= d < 1024
      ensures Present(pd[d]) && (Huge(pd[d]) <==> d >= 4) && !User(pd[d])
      ensures IsTable(pd[d]) ==> TableOk(pd[d], bits) && Frame(pd[d]) == tables[d]
    {
      if d < 4 { TableEntryFields(tables[d]); } else { BigEntryFields(d); }
    }
    forall d, e | 0 <= d < e < 1024 && IsTable(pd[d]) && IsTable(pd[e]) ensures Frame(pd[d]) != Frame(pd[e]) {
      assert tables[d] / PAGE_SIZE != tables[e] / PAGE_SIZE;
    }
  }

  lemma InitMaps(pd: Directory, m: Mem, tables: seq<u32>, v: u32)
    requires |tables| == 4 && (Dir(v) < 4 ==> tables[Dir(v)] % PAGE_SIZE == 0 && tables[Dir(v)] + 3 < WORD && pd[Dir(v)] == tables[Dir(v)] + 3)
    requires Dir(v) < 4 ==> InitSlot(m, tables[Dir(v)], Dir(v), Tab(v))
    requires Dir(v) >= 4 ==> pd[Dir(v)] == BigEntry(Dir(v))
    ensures IsTable(pd[Dir(v)]) ==> EntryInMem(m, pd[Dir(v)], Tab(v))
    ensures Translate(pd, m, v) == Some(IdentityMapping(v))
  {
    hide Ld, Present, Huge, User, Writable, NoCache, WriteThrough, Frame, BigFrame, BigEntry, InitEntry, WordAt;
    VgaPage(v);
    if Dir(v) < 4 {
      TableEntryFields(tables[Dir(v)]);
      InitEntryFields(Dir(v), Tab(v));
    } else {
      BigEntryFields(Dir(v));
      PastVga(v);
    }
  }

  lemma PastVga(v: u32)
    requires Dir(v) >= 4
    ensures !VgaWindow(v)
  {
  }

  // ---- the range of vmm_map_framebuffer

  /** The end of the last 4MB slot but one boundary: rounding up above it passes 2^32. */
  const TOP: int := 0xFFC0_0000

  function RoundUp(x: int): int { (x + BIG - 1) / BIG * BIG }

  /** How many 4MB slots the range touches. */
  function SlotsIn(fb: u32, size: u32): int { (RoundUp(fb + size) - BigFrame(fb)) / BIG }

  function Uncached(v: u32): Mapping { Mapping(v, true, false, true, true) }

  const FB_FLAGS: u32 := 27

  /** The page of v is one of those the second loop comes to: it starts at fb and goes on by whole pages below the end. */
  predicate Framed(fb: u32, end: int, v: u32) {
    fb / PAGE_SIZE <= v / PAGE_SIZE && v / PAGE_SIZE * PAGE_SIZE + fb % PAGE_SIZE < end
  }

  /** The second loop ends: stepping by whole pages it does not pass 2^32 before it is done. */
  predicate LoopEnds(fb: u32, size: u32) {
    var e := (fb + size) % WORD;
    fb < e ==> e <= WORD - PAGE_SIZE + fb % PAGE_SIZE
  }

  /** Where the cursor of the second loop stands after so many pages, if it goes on. */
  function PageAfter(fb: u32, i: nat): u32 { (fb + PAGE_SIZE * i) % WORD }

  /** The loop leaves the range at some page if and only if LoopEnds; otherwise it goes round for ever. */
  lemma LoopEndsIff(fb: u32, size: u32)
    ensures LoopEnds(fb, size) <==> exists i: nat :: PageAfter(fb, i) >= (fb + size) % WORD
  {
    var e, last := (fb + size) % WORD, WORD / PAGE_SIZE - 1 - fb / PAGE_SIZE;
    LastPage(fb);
    if fb >= e {
      assert PageAfter(fb, 0) >= e;
    } else if LoopEnds(fb, size) {
      assert PageAfter(fb, last) >= e;
    } else {
      forall i: nat ensures PageAfter(fb, i) < e { InLastPage(fb, i); }
    }
  }

  lemma LastPage(fb: u32)
    ensures var last := WORD / PAGE_SIZE - 1 - fb / PAGE_SIZE; last >= 0 && PageAfter(fb, last) == WORD - PAGE_SIZE + fb % PAGE_SIZE
  {
    assert fb == PAGE_SIZE * (fb / PAGE_SIZE) + fb % PAGE_SIZE;
  }

  lemma InLastPage(fb: u32, i: nat)
    ensures PageAfter(fb, i) <= WORD - PAGE_SIZE + fb % PAGE_SIZE
  {
    var q := fb / PAGE_SIZE + i;
    var n := WORD / PAGE_SIZE;
    assert fb + PAGE_SIZE * i == PAGE_SIZE * q + fb % PAGE_SIZE;
    assert q == n * (q / n) + q % n && q % n <= n - 1;
    assert PAGE_SIZE * q + fb % PAGE_SIZE == WORD * (q / n) + (PAGE_SIZE * (q % n) + fb % PAGE_SIZE);
    WrapOff(q / n, PAGE_SIZE * (q % n) + fb % PAGE_SIZE);
  }

  lemma WrapOff(k: int, x: int)
    requires 0 <= x < WORD
    ensures (WORD * k + x) % WORD == x
  {
  }

  /** In a range of whole pages these are its own addresses, and the loop ends. */
  lemma WholePages(fb: u32, size: u32, v: u32)
    requires fb % PAGE_SIZE == 0 && size % PAGE_SIZE == 0
    ensures LoopEnds(fb, size) && (fb + size < WORD ==> (Framed(fb, fb + size, v) <==> fb <= v < fb + size))
  {
    assert fb == PAGE_SIZE * (fb / PAGE_SIZE) && size == PAGE_SIZE * (size / PAGE_SIZE);
    assert v == PAGE_SIZE * (v / PAGE_SIZE) + v % PAGE_SIZE;
  }

  lemma NotFramed(fb: u32, end: u32, v: u32)
    requires end <= fb
    ensures !Framed(fb, end, v)
  {
    assert fb == PAGE_SIZE * (fb / PAGE_SIZE) + fb % PAGE_SIZE;
  }

  lemma FramedNext(fb: u32, addr: u32, v: u32)
    requires fb <= addr && addr % PAGE_SIZE == fb % PAGE_SIZE
    ensures Framed(fb, addr + PAGE_SIZE, v) <==> Framed(fb, addr, v) || v / PAGE_SIZE == addr / PAGE_SIZE
  {
    assert addr == PAGE_SIZE * (addr / PAGE_SIZE) + addr % PAGE_SIZE;
    assert fb == PAGE_SIZE * (fb / PAGE_SIZE) + fb % PAGE_SIZE;
  }

  lemma FramedEnd(fb: u32, addr: u32, end: u32, v: u32)
    requires fb <= addr && addr % PAGE_SIZE == fb % PAGE_SIZE && end <= addr && (addr - PAGE_SIZE < end || addr == fb)
    ensures Framed(fb, addr, v) <==> Framed(fb, end, v)
  {
    assert addr == PAGE_SIZE * (addr / PAGE_SIZE) + addr % PAGE_SIZE;
    assert fb == PAGE_SIZE * (fb / PAGE_SIZE) + fb % PAGE_SIZE;
  }

  lemma NextPage(fb: u32, end: u32, addr: u32)
    requires fb <= addr < end && addr % PAGE_SIZE == fb % PAGE_SIZE && end <= WORD - PAGE_SIZE + fb % PAGE_SIZE
    ensures addr + PAGE_SIZE < WORD && (addr + PAGE_SIZE) % PAGE_SIZE == fb % PAGE_SIZE
  {
    assert addr == PAGE_SIZE * (addr / PAGE_SIZE) + addr % PAGE_SIZE;
  }

  lemma FramebufferFlags(addr: u32, v: u32)
    requires v / 4096 == addr / 4096
    ensures PageMapping(addr, FB_FLAGS, v) == Uncached(v)
  {
    assert Writable(27) && WriteThrough(27) && NoCache(27);
    assert v == v / 4096 * 4096 + v % 4096;
  }

  lemma SlotAt(addr: u32, k: nat)
    requires addr == BIG * k
    ensures Dir(addr) == k && addr + BIG <= WORD
  {
  }

  lemma StaticBounds(tables: seq<u32>, bits: Bitmap, t: nat)
    requires StaticTables(tables, bits) && t < 4
    ensures StaticTable(tables[t], bits) && tables[t] % PAGE_SIZE == 0 && tables[t] + PAGE_SIZE <= MAX_PAGES * PAGE_SIZE
  {
  }

  lemma StaticKeeps(m: Mem, m': Mem, tables: seq<u32>, bits: Bitmap, t: nat)
    requires StaticTables(tables, bits) && t < 4 && RangeOnly(m, m', tables[t], tables[t] + PAGE_SIZE)
    requires forall d, p :: 0 <= d < t && 0 <= p < 1024 ==> InitSlot(m, tables[d], d, p)
    requires forall p :: 0 <= p < 1024 ==> InitSlot(m', tables[t], t, p)
    ensures forall d, p :: 0 <= d < t + 1 && 0 <= p < 1024 ==> InitSlot(m', tables[d], d, p)
  {
    hide InitSlot, StaticTable, Ld;
    forall d, p | 0 <= d < t + 1 && 0 <= p < 1024 ensures InitSlot(m', tables[d], d, p) {
      if d < t { StaticApart(m, m', tables, bits, d, t, p); }
    }
  }

  /** Only the first t static tables have been written. */
  ghost predicate StaticOnly(m: Mem, m': Mem, tables: seq<u32>, t: nat)
    requires t <= |tables|
  {
    |m'| == |m| && forall a {:trigger Ld(m', a)} :: InMem(m, a) && !InStatic(tables, t, a) ==> Ld(m', a) == Ld(m, a)
  }

  ghost predicate InStatic(tables: seq<u32>, t: nat, a: int)
    requires t <= |tables|
  {
    exists d :: 0 <= d < t && tables[d] <= a < tables[d] + PAGE_SIZE
  }

  lemma StaticNone(m: Mem, tables: seq<u32>)
    ensures StaticOnly(m, m, tables, 0)
  {
  }

  lemma StaticNext(m: Mem, m1: Mem, m2: Mem, tables: seq<u32>, t: nat)
    requires t < |tables| && StaticOnly(m, m1, tables, t) && RangeOnly(m1, m2, tables[t], tables[t] + PAGE_SIZE)
    ensures StaticOnly(m, m2, tables, t + 1)
  {
    hide Ld, WordAt;
    forall a | InMem(m, a) && !InStatic(tables, t + 1, a) ensures Ld(m2, a) == Ld(m, a) {
      assert !InStatic(tables, t, a);
      assert Ld(m1, a) == Ld(m, a);
    }
  }

  lemma StaticAreTables(m: Mem, m': Mem, tables: seq<u32>, bits: Bitmap, pd: Directory)
    requires StaticTables(tables, bits) && StaticOnly(m, m', tables, 4)
    requires forall d :: 0 <= d < 4 ==> tables[d] + 3 < WORD && pd[d] == tables[d] + 3
    ensures TablesOnly(m, m', pd)
  {
    hide Ld, WordAt, StaticTable, InTables, InStatic;
    forall a | InMem(m, a) && !InTables(pd, a) ensures InMem(m', a) && Ld(m', a) == Ld(m, a) {
      if InStatic(tables, 4, a) { StaticIsTable(tables, bits, pd, a); }
    }
  }

  lemma StaticIsTable(tables: seq<u32>, bits: Bitmap, pd: Directory, a: int)
    requires StaticTables(tables, bits) && InStatic(tables, 4, a)
    requires forall d :: 0 <= d < 4 ==> tables[d] + 3 < WORD && pd[d] == tables[d] + 3
    ensures InTables(pd, a)
  {
    hide Used, IsTable, Frame;
    var d :| 0 <= d < 4 && tables[d] <= a < tables[d] + PAGE_SIZE;
    StaticBounds(tables, bits, d);
    TableEntryFields(tables[d]);
    assert InTable(pd[d], a);
  }

  lemma InitNext(m: Mem, m': Mem, pt: int, t: nat, i: nat)
    requires i < 1024 && t < 4 && InMem(m, pt + 4 * i) && forall p :: 0 <= p < i ==> InitSlot(m, pt, t, p)
    requires m' == St(m, pt + 4 * i, InitEntry(t, i))
    ensures forall p :: 0 <= p < i + 1 ==> InitSlot(m', pt, t, p)
  {
    hide Ld, St, InitEntry;
    forall p | 0 <= p < i + 1 ensures InitSlot(m', pt, t, p) {
      if p < i { assert InitSlot(m, pt, t, p); }
    }
  }

  lemma BigEntryIs(i: nat)
    requires i < 1024
    ensures 0 <= i * BIG + P + W + PS < WORD && i * BIG + P + W + PS == BigEntry(i)
  {
  }

  lemma NoUser(pd: Directory, m: Mem, v: u32)
    requires Huge(pd[Dir(v)]) && !User(pd[Dir(v)])
    ensures WithoutUser(Translate(pd, m, v)) == Translate(pd, m, v)
  {
    hide Ld, Present, Huge, User, Writable, NoCache, WriteThrough, Frame, BigFrame, Dir;
  }

  /** `(end + 0x3FFFFF) & 0xFFC00000` in 32 bits. */
  function SlotEnd(end: u32): (r: u32) { (end + BIG - 1) % WORD / BIG * BIG }

  lemma Rounded(fb: u32, size: u32)
    ensures var e := (fb + size) % WORD; var end4 := SlotEnd(e);
      && 0 <= end4 < WORD && end4 % BIG == 0
      && (fb + size <= TOP ==> end4 == RoundUp(fb + size))
      && (TOP < fb + size < WORD ==> end4 == 0)
      && (fb + size >= WORD ==> e < fb)
  {
  }

  lemma InSlots(fb: u32, size: u32, v: u32)
    requires fb + size <= TOP && Framed(fb, fb + size, v)
    ensures BigFrame(fb) <= BIG * Dir(v) < RoundUp(fb + size)
  {
    SlotOfPage(fb);
    SlotOfPage(v);
    Downward(fb / PAGE_SIZE, v / PAGE_SIZE);
  }

  lemma SlotOfPage(v: u32)
    ensures Dir(v) == v / PAGE_SIZE / 1024 && BigFrame(v) == BIG * Dir(v) && BIG * Dir(v) <= v / PAGE_SIZE * PAGE_SIZE
  {
  }

  lemma Downward(a: int, b: int)
    requires 0 <= a <= b
    ensures a / 1024 <= b / 1024
  {
  }

  ghost predicate EveryUsed(bits: Bitmap) { forall q :: 0 <= q < MAX_PAGES ==> Used(bits, q) }

  /** A slot of the range that lies before `to` still holds a 4MB page. */
  ghost predicate SlotLeft(pd: Directory, from: int, to: int) { exists d :: 0 <= d < 1024 && from <= BIG * d < to && Huge(pd[d]) }

  lemma ConfinedUsed(m: Mem, pd: Directory, bits: Bitmap, m': Mem, pd': Directory, bits': Bitmap)
    requires Confined(m, pd, bits, m', pd', bits')
    ensures UsedKept(bits, bits') && (EveryUsed(bits) ==> EveryUsed(bits')) && (Used(bits, 0) ==> Used(bits', 0))
  {
    hide Used, TablesOnly, TableKept;
  }

  lemma SlotLeftWithin(pd: Directory, from: int, a: int, b: int)
    requires b <= a
    ensures (SlotLeft(pd, from, b) ==> SlotLeft(pd, from, a)) && !SlotLeft(pd, from, from)
  {
    hide Huge;
  }

  /** One slot more of the range gone through. */
  lemma SlotLeftNext(pd: Directory, pd': Directory, from: int, k: nat)
    requires k < 1024 && forall d :: 0 <= d < 1024 && d != k ==> pd'[d] == pd[d]
    ensures SlotLeft(pd', from, BIG * (k + 1)) ==> SlotLeft(pd, from, BIG * k) || Huge(pd'[k])
  {
    hide Huge;
    if SlotLeft(pd', from, BIG * (k + 1)) && !Huge(pd'[k]) {
      var d :| 0 <= d < 1024 && from <= BIG * d < BIG * (k + 1) && Huge(pd'[d]);
      assert d < k && Huge(pd[d]);
    }
  }

  lemma NextSlot(addr: u32, end4: u32, k: nat)
    requires addr < end4 && addr == BIG * k && end4 % BIG == 0
    ensures k < 1024 && addr + BIG <= end4 && (end4 - addr) / BIG == (end4 - (addr + BIG)) / BIG + 1
    ensures forall d :: BIG * d < addr + BIG <==> d <= k
  {
  }

  class Vmm {
    const pageDirectory: array<u32>
    const frames: FrameAllocator
    const ram: Ram

    constructor (r: Ram, f: FrameAllocator)
      ensures ram == r && frames == f && fresh(pageDirectory) && pageDirectory.Length == 1024
      ensures forall d :: 0 <= d < 1024 ==> pageDirectory[d] == 0
    {
      pageDirectory := new u32[1024](_ => 0);
      ram, frames := r, f;
    }

    ghost predicate Valid()
      reads this, ram, pageDirectory, frames, frames.bitmap
    {
      pageDirectory.Length == 1024 && frames.Valid() && DirectoryOk(pageDirectory[..], ram.mem, frames.Bits())
    }

    /** What the hardware makes of a virtual address. */
    ghost function Map(v: u32): Option<Mapping>
      requires Valid()
      reads this, ram, pageDirectory, frames, frames.bitmap
    {
      TableWords(pageDirectory[..], ram.mem, frames.Bits(), v);
      Translate(pageDirectory[..], ram.mem, v)
    }

    /** vmm_split_4mb_page: the 4MB page becomes a table with the same translations. Only the
        user flag of the page is lost, which no kernel mapping has. Without a free frame
        nothing changes. */
    method Split(virt: u32)
      requires Valid()
      modifies ram`mem, pageDirectory, frames`usedPages, frames`lastAllocHint, frames.bitmap
      ensures Valid() && |ram.mem| == |old(ram.mem)| && frames.usedPages <= old(frames.usedPages) + 1
      ensures old(frames.Counted()) ==> frames.Counted()
      ensures forall d :: 0 <= d < 1024 && d != Dir(virt) ==> pageDirectory[d] == old(pageDirectory[d])
      ensures if Huge(old(pageDirectory[Dir(virt)])) then IsTable(pageDirectory[Dir(virt)]) || pageDirectory[..] == old(pageDirectory[..])
              else pageDirectory[..] == old(pageDirectory[..]) && frames.usedPages == old(frames.usedPages)
      ensures Confined(old(ram.mem), old(pageDirectory[..]), old(frames.Bits()), ram.mem, pageDirectory[..], frames.Bits())
      ensures old(Used(frames.Bits(), 0) && Huge(pageDirectory[Dir(virt)])) && pageDirectory[..] == old(pageDirectory[..]) ==>
        frames.usedPages == old(frames.usedPages) && forall q :: 0 <= q < MAX_PAGES ==> Used(frames.Bits(), q)
      ensures forall v: u32 ::
        Map(v) == if Dir(v) == Dir(virt) && pageDirectory[..] != old(pageDirectory[..]) then WithoutUser(old(Map(v))) else old(Map(v))
    {
      hide Used, SetPage, Translate, DirectoryOk, Ld, St, WordAt, SplitEntry, CountUsed, Huge, Present, Frame, BigFrame;
      var d := Dir(virt);
      ghost var pd: Directory, m0, bits := pageDirectory[..], ram.mem, frames.Bits();
      ConfinedFrames(m0, pd, bits, bits, 0);
      if !Huge(pageDirectory[d]) { return; }
      var base := BigFrame(pageDirectory[d]);
      var oldFlags := pageDirectory[d] % 32;
      var pt := frames.Alloc();
      assert frames.Bits() != bits ==> frames.Bits() == SetPage(bits, pt / PAGE_SIZE);
      SetPageUsed(bits, if pt / PAGE_SIZE < MAX_PAGES then pt / PAGE_SIZE else 0);
      if pt == 0 {
        ZeroFrame(bits);
        MoreFrames(pd, m0, bits, frames.Bits(), 0);
        ConfinedFrames(m0, pd, bits, frames.Bits(), 0);
        return;
      }
      NewTable(pd, m0, bits, d, pt);
      ghost var bits1, used1 := frames.Bits(), frames.usedPages;
      var i := 0;
      while i < 1024
        invariant 0 <= i <= 1024 && |ram.mem| == |m0| && pageDirectory[..] == pd
        invariant RangeOnly(m0, ram.mem, pt, pt + PAGE_SIZE)
        invariant frames.Bits() == bits1 && frames.usedPages == used1 && frames.Valid() && (old(frames.Counted()) ==> frames.Counted())
        invariant forall t :: 0 <= t < i ==> SlotIs(ram.mem, pd[d], pt, t)
      {
        TableSlot(m0, pt, i);
        SplitEntryIs(pd[d], i, base, oldFlags);
        ghost var was := ram.mem;
        var entry: u32 := base + i * PAGE_SIZE + oldFlags;
        ram.mem := St(ram.mem, pt + 4 * i, entry);
        FilledNext(was, ram.mem, pd[d], pt, i);
        i := i + 1;
      }
      pageDirectory[d] := pt + P + W;
      TableEntryFields(pt);
      SplitDirectory(pd, m0, bits, d, pt, pageDirectory[..], ram.mem, frames.Bits());
      ConfinedTable(m0, pd, bits, ram.mem, pageDirectory[..], frames.Bits(), d, pt);
    }

    /** memset of a new page table. */
    method ClearTable(pt: u32)
      requires pt % PAGE_SIZE == 0 && pt + PAGE_SIZE <= 4 * |ram.mem|
      modifies ram`mem
      ensures |ram.mem| == |old(ram.mem)| && RangeOnly(old(ram.mem), ram.mem, pt, pt + PAGE_SIZE)
      ensures forall t :: 0 <= t < 1024 ==> ZeroSlot(ram.mem, pt, t)
    {
      hide Ld, St, WordAt;
      var i := 0;
      ghost var m0 := ram.mem;
      while i < 1024
        invariant 0 <= i <= 1024 && |ram.mem| == |m0| && RangeOnly(m0, ram.mem, pt, pt + PAGE_SIZE)
        invariant forall t :: 0 <= t < i ==> ZeroSlot(ram.mem, pt, t)
      {
        TableSlot(m0, pt, i);
        ghost var was := ram.mem;
        ram.mem := St(ram.mem, pt + 4 * i, 0);
        ClearedNext(was, ram.mem, pt, i);
        i := i + 1;
      }
    }

    /** vmm_map_page: one page is mapped, unless its slot holds a 4MB page or a table is needed
        and no frame is free; no other address changes. */
    method MapPage(virt: u32, phys: u32, flags: u32)
      requires Valid() && flags < 4096
      modifies ram`mem, pageDirectory, frames`usedPages, frames`lastAllocHint, frames.bitmap
      ensures Valid() && |ram.mem| == |old(ram.mem)|
      ensures old(frames.Counted()) ==> frames.Counted()
      ensures Confined(old(ram.mem), old(pageDirectory[..]), old(frames.Bits()), ram.mem, pageDirectory[..], frames.Bits())
      ensures old(Present(pageDirectory[Dir(virt)])) ==>
        pageDirectory[..] == old(pageDirectory[..]) && frames.Bits() == old(frames.Bits()) && frames.usedPages == old(frames.usedPages)
      ensures forall v: u32 ::
        Map(v) == if v / 4096 == virt / 4096 && IsTable(pageDirectory[Dir(virt)]) then Some(PageMapping(phys, flags, v)) else old(Map(v))
      ensures old(!Present(pageDirectory[Dir(virt)]) && Used(frames.Bits(), 0)) && !IsTable(pageDirectory[Dir(virt)]) ==>
        forall q :: 0 <= q < MAX_PAGES ==> Used(old(frames.Bits()), q)
    {
      hide Used, SetPage, Translate, DirectoryOk, Ld, St, WordAt, MakeEntry, Huge, Present, Frame, Writable, User, WriteThrough, NoCache, CountUsed;
      var d, t := Dir(virt), Tab(virt);
      ghost var pd0: Directory, m0, bits0 := pageDirectory[..], ram.mem, frames.Bits();
      ConfinedFrames(m0, pd0, bits0, bits0, 0);
      if !Present(pageDirectory[d]) {
        var pt := frames.Alloc();
        if pt == 0 {
          ConfinedFrames(m0, pd0, bits0, frames.Bits(), 0);
          MoreFrames(pd0, ram.mem, bits0, frames.Bits(), 0);
          SamePageMaps(pd0, ram.mem, virt);
          return;
        }
        NewTable(pd0, m0, bits0, d, pt);
        TableEntryFields(pt);
        ClearTable(pt);
        pageDirectory[d] := pt + P + W;
        EmptyDirectory(pd0, m0, bits0, d, pt, pageDirectory[..], ram.mem, frames.Bits());
        ConfinedTable(m0, pd0, bits0, ram.mem, pageDirectory[..], frames.Bits(), d, pt);
      } else if Huge(pageDirectory[d]) {
        return;
      }
      ghost var pd: Directory, m1 := pageDirectory[..], ram.mem;
      assert IsTable(pd[d]);
      TableWord(pd, ram.mem, frames.Bits(), d, t);
      var pt := Frame(pageDirectory[d]);
      ConfinedEntry(m1, pd, frames.Bits(), d, t, MakeEntry(phys, flags));
      ram.mem := St(ram.mem, pt + 4 * t, MakeEntry(phys, flags));
      ConfinedTwice(m0, pd0, bits0, m1, pd, frames.Bits(), ram.mem, pd, frames.Bits());
      WriteEntry(pd, m1, frames.Bits(), virt, phys, flags, ram.mem);
    }

    /** vmm_unmap_page, for a slot that holds no 4MB page. */
    method UnmapPage(virt: u32)
      requires Valid() && !Huge(pageDirectory[Dir(virt)])
      modifies ram`mem
      ensures Valid() && |ram.mem| == |old(ram.mem)|
      ensures Confined(old(ram.mem), old(pageDirectory[..]), old(frames.Bits()), ram.mem, pageDirectory[..], frames.Bits())
      ensures forall v: u32 :: Map(v) == if v / 4096 == virt / 4096 then None else old(Map(v))
    {
      hide Used, Translate, DirectoryOk, Ld, St, WordAt, Huge, Present, Frame;
      ghost var pd: Directory, m0 := pageDirectory[..], ram.mem;
      SamePageMaps(pd, ram.mem, virt);
      ConfinedFrames(m0, pd, frames.Bits(), frames.Bits(), 0);
      if !Present(pageDirectory[Dir(virt)]) { return; }
      TableWord(pd, ram.mem, frames.Bits(), Dir(virt), Tab(virt));
      ConfinedEntry(m0, pd, frames.Bits(), Dir(virt), Tab(virt), 0);
      ram.mem := St(ram.mem, Frame(pageDirectory[Dir(virt)]) + 4 * Tab(virt), 0);
      ClearEntry(pd, m0, frames.Bits(), virt, ram.mem);
    }

    /** The shape every kernel directory has: all slots present, 4MB pages without the user
        flag, and tables for the first 16 MB. */
    ghost predicate KernelShape()
      requires pageDirectory.Length == 1024
      reads this, pageDirectory
    {
      forall d :: 0 <= d < 1024 ==>
        Present(pageDirectory[d]) && (Huge(pageDirectory[d]) ==> !User(pageDirectory[d])) && (d < 4 ==> !Huge(pageDirectory[d]))
    }

    /** vmm_init: everything is mapped to itself, writable, the first 16 MB through the four
        static tables with the VGA window uncached, the rest by 4MB pages. */
    method Init(tables: seq<u32>)
      requires pageDirectory.Length == 1024 && frames.Valid() && 4 * |ram.mem| >= MAX_PAGES * PAGE_SIZE
      requires StaticTables(tables, frames.Bits())
      modifies ram`mem, pageDirectory
      ensures Valid() && KernelShape() && |ram.mem| == |old(ram.mem)|
      ensures forall d :: 0 <= d < 1024 && IsTable(pageDirectory[d]) ==> d < 4 && Frame(pageDirectory[d]) == tables[d]
      ensures TablesOnly(old(ram.mem), ram.mem, pageDirectory[..])
      ensures forall v: u32 :: Map(v) == Some(IdentityMapping(v))
    {
      hide TablesOnly, StaticOnly, Used, Ld, St, WordAt, Frame, Translate, InitEntry, BigEntry, Present, Huge, User, StaticTable, DirectoryOk;
      ghost var bits := frames.Bits();
      var d := 0;
      while d < 1024
        invariant 0 <= d <= 1024
        invariant ram.mem == old(ram.mem) && frames.Valid() && frames.Bits() == bits
      {
        pageDirectory[d] := 0;
        d := d + 1;
      }
      StaticNone(ram.mem, tables);
      var t := 0;
      while t < 4
        invariant 0 <= t <= 4 && |ram.mem| == |old(ram.mem)| && StaticOnly(old(ram.mem), ram.mem, tables, t)
        invariant frames.Valid() && frames.Bits() == bits
        invariant forall d, p :: 0 <= d < t && 0 <= p < 1024 ==> InitSlot(ram.mem, tables[d], d, p)
        invariant forall d :: 0 <= d < t ==> tables[d] + 3 < WORD && pageDirectory[d] == tables[d] + 3
      {
        ghost var m0 := ram.mem;
        StaticBounds(tables, bits, t);
        FillStatic(tables[t], t);
        StaticKeeps(m0, ram.mem, tables, bits, t);
        StaticNext(old(ram.mem), m0, ram.mem, tables, t);
        pageDirectory[t] := tables[t] + P + W;
        t := t + 1;
      }
      var i := 4;
      while i < 1024
        invariant 4 <= i <= 1024
        invariant |ram.mem| == |old(ram.mem)| && StaticOnly(old(ram.mem), ram.mem, tables, 4)
        invariant forall d, p :: 0 <= d < 4 && 0 <= p < 1024 ==> InitSlot(ram.mem, tables[d], d, p)
        invariant frames.Valid() && frames.Bits() == bits
        invariant forall d :: 0 <= d < 4 ==> tables[d] + 3 < WORD && pageDirectory[d] == tables[d] + 3
        invariant forall d :: 4 <= d < i ==> pageDirectory[d] == BigEntry(d)
      {
        BigEntryIs(i);
        pageDirectory[i] := i * BIG + P + W + PS;
        i := i + 1;
      }
      forall d | 0 <= d < 4 ensures StaticTable(tables[d], bits) { StaticBounds(tables, bits, d); }
      InitIsOk(pageDirectory[..], ram.mem, tables, bits);
      StaticAreTables(old(ram.mem), ram.mem, tables, bits, pageDirectory[..]);
      forall v: u32 ensures Map(v) == Some(IdentityMapping(v)) {
        if Dir(v) < 4 { StaticBounds(tables, bits, Dir(v)); }
        InitMaps(pageDirectory[..], ram.mem, tables, v);
      }
    }

    /** One static table of vmm_init. */
    method FillStatic(pt: u32, t: nat)
      requires pt % PAGE_SIZE == 0 && pt + PAGE_SIZE <= 4 * |ram.mem| && t < 4
      modifies ram`mem
      ensures |ram.mem| == |old(ram.mem)| && RangeOnly(old(ram.mem), ram.mem, pt, pt + PAGE_SIZE)
      ensures forall p :: 0 <= p < 1024 ==> InitSlot(ram.mem, pt, t, p)
    {
      hide Ld, St, WordAt;
      var p := 0;
      ghost var m0 := ram.mem;
      while p < 1024
        invariant 0 <= p <= 1024 && |ram.mem| == |m0| && RangeOnly(m0, ram.mem, pt, pt + PAGE_SIZE)
        invariant forall q :: 0 <= q < p ==> InitSlot(ram.mem, pt, t, q)
      {
        TableSlot(m0, pt, p);
        var phys := (t * 1024 + p) * PAGE_SIZE;
        var flags := P + W;
        if 0xA0000 <= phys < 0xC0000 { flags := flags + WT + NC; }
        ghost var was := ram.mem;
        ram.mem := St(ram.mem, pt + 4 * p, phys + flags);
        InitNext(was, ram.mem, pt, t, p);
        p := p + 1;
      }
    }

    /** One turn of the first loop of vmm_map_framebuffer: a 4MB page above the first 16 MB
        becomes a table while a frame is free, and no mapping changes. */
    method SplitSlot(addr: u32, k: nat)
      requires Valid() && KernelShape() && addr == BIG * k && k < 1024
      modifies ram`mem, pageDirectory, frames`usedPages, frames`lastAllocHint, frames.bitmap
      ensures Valid() && KernelShape() && |ram.mem| == |old(ram.mem)|
      ensures old(Counts()) ==> Counts() && frames.usedPages <= old(frames.usedPages) + 1
      ensures old(Counts()) && old(frames.usedPages) < MAX_PAGES ==> !Huge(pageDirectory[k])
      ensures old(Used(frames.Bits(), 0)) && Huge(pageDirectory[k]) ==> EveryUsed(frames.Bits())
      ensures forall d :: 0 <= d < 1024 && Huge(pageDirectory[d]) ==> Huge(old(pageDirectory[d]))
      ensures forall d :: 0 <= d < 1024 && d != k ==> pageDirectory[d] == old(pageDirectory[d])
      ensures Confined(old(ram.mem), old(pageDirectory[..]), old(frames.Bits()), ram.mem, pageDirectory[..], frames.Bits())
      ensures forall v: u32 :: Map(v) == old(Map(v))
    {
      hide Used, Present, Huge, User, DirectoryOk, Translate, CountUsed, SetPage, TablesOnly, TableKept;
      SlotAt(addr, k);
      ConfinedFrames(ram.mem, pageDirectory[..], frames.Bits(), frames.Bits(), 0);
      if k >= 4 && Huge(pageDirectory[k]) {
        ghost var pd: Directory, m0 := pageDirectory[..], ram.mem;
        forall v: u32 | Dir(v) == k ensures WithoutUser(Map(v)) == Map(v) { NoUser(pd, m0, v); }
        Split(addr);
        if pageDirectory[..] == old(pageDirectory[..]) {
          CountAll(frames.Bits(), MAX_PAGES);
        }
      }
    }

    /** The allocator's counter is right and page 0 is not handed out. */
    ghost predicate Counts()
      requires frames.Valid()
      reads this, frames, frames.bitmap
    {
      frames.Counted() && Used(frames.Bits(), 0)
    }

    /** The range lies below the last slot, and there is a frame for each slot it touches. */
    ghost predicate Enough(fb: u32, size: u32)
      requires frames.Valid()
      reads this, frames, frames.bitmap
    {
      Counts() && fb + size <= TOP && frames.usedPages + SlotsIn(fb, size) <= MAX_PAGES
    }

    /** vmm_map_framebuffer. The pages of the range are mapped to themselves, uncached, where their slot holds a table in
        the end, and no other address changes. With enough frames all slots do. A range that ends above 0xFFC00000 is
        rounded past 2^32, so that no 4MB page is split; one that wraps changes no mapping. */
    method MapFramebuffer(fb: u32, size: u32)
      requires Valid() && KernelShape() && LoopEnds(fb, size)
      modifies ram`mem, pageDirectory, frames`usedPages, frames`lastAllocHint, frames.bitmap
      ensures Valid() && KernelShape() && |ram.mem| == |old(ram.mem)|
      ensures Confined(old(ram.mem), old(pageDirectory[..]), old(frames.Bits()), ram.mem, pageDirectory[..], frames.Bits())
      ensures forall v: u32 ::
        Map(v) == if fb + size < WORD && Framed(fb, fb + size, v) && !Huge(pageDirectory[Dir(v)]) then Some(Uncached(v)) else old(Map(v))
      ensures old(Enough(fb, size)) ==> forall v: u32 :: Framed(fb, fb + size, v) ==> !Huge(pageDirectory[Dir(v)])
      ensures fb + size <= TOP && old(Used(frames.Bits(), 0)) && !EveryUsed(frames.Bits()) ==>
        forall v: u32 :: Framed(fb, fb + size, v) ==> !Huge(pageDirectory[Dir(v)])
      ensures TOP < fb + size < WORD ==> pageDirectory[..] == old(pageDirectory[..])
    {
      hide Used, Present, Huge, User, DirectoryOk, Translate, CountUsed, SetPage, RoundUp, BigFrame, Tab, Dir, Confined, SlotEnd, IsTable, Counts, Framed, EveryUsed;
      var fbEnd: u32 := (fb + size) % WORD;
      var start4: u32 := BigFrame(fb);
      var end4: u32 := SlotEnd(fbEnd);
      ghost var pd0: Directory, m0, bits0 := pageDirectory[..], ram.mem, frames.Bits();
      Rounded(fb, size);
      SplitSlots(fb, size, start4, end4);
      ghost var pd1: Directory, m1, bits1 := pageDirectory[..], ram.mem, frames.Bits();
      if old(Enough(fb, size)) {
        forall v: u32 | Framed(fb, fb + size, v) ensures !Huge(pd1[Dir(v)]) { InSlots(fb, size, v); }
      }
      if fb + size <= TOP && old(Used(frames.Bits(), 0)) && !EveryUsed(bits1) {
        forall v: u32 | Framed(fb, fb + size, v) ensures !Huge(pd1[Dir(v)]) { InSlots(fb, size, v); }
      }
      MapRange(fb, fbEnd);
      ConfinedUsed(m1, pd1, bits1, ram.mem, pd1, frames.Bits());
      ConfinedTwice(m0, pd0, bits0, m1, pd1, bits1, ram.mem, pd1, frames.Bits());
      if fb + size >= WORD {
        forall v: u32 ensures !Framed(fb, fbEnd, v) { NotFramed(fb, fbEnd, v); }
      }
    }

    /** The second loop of vmm_map_framebuffer. */
    method MapRange(fb: u32, fbEnd: u32)
      requires Valid() && KernelShape() && (fb < fbEnd ==> fbEnd <= WORD - PAGE_SIZE + fb % PAGE_SIZE)
      modifies ram`mem, pageDirectory, frames`usedPages, frames`lastAllocHint, frames.bitmap
      ensures Valid() && KernelShape() && |ram.mem| == |old(ram.mem)| && pageDirectory[..] == old(pageDirectory[..])
      ensures Confined(old(ram.mem), old(pageDirectory[..]), old(frames.Bits()), ram.mem, pageDirectory[..], frames.Bits())
      ensures forall v: u32 :: Map(v) == if Framed(fb, fbEnd, v) && !Huge(pageDirectory[Dir(v)]) then Some(Uncached(v)) else old(Map(v))
    {
      hide Used, Present, Huge, User, DirectoryOk, Translate, CountUsed, SetPage, BigFrame, Tab, Dir, PageMapping, Confined, Framed;
      ghost var pd: Directory, m0, bits0 := pageDirectory[..], ram.mem, frames.Bits();
      ConfinedFrames(m0, pd, bits0, bits0, 0);
      var flags := P + W + WT + NC;
      var addr: u32 := fb;
      forall v: u32 ensures !Framed(fb, fb, v) { NotFramed(fb, fb, v); }
      while addr < fbEnd
        invariant fb <= addr && addr % PAGE_SIZE == fb % PAGE_SIZE && (addr - PAGE_SIZE < fbEnd || addr == fb)
        invariant Valid() && KernelShape() && |ram.mem| == |m0| && pageDirectory[..] == pd
        invariant Confined(m0, pd, bits0, ram.mem, pd, frames.Bits())
        invariant forall v: u32 :: Map(v) == if Framed(fb, addr, v) && !Huge(pd[Dir(v)]) then Some(Uncached(v)) else old(Map(v))
      {
        ghost var m1, bits1 := ram.mem, frames.Bits();
        assert Present(pd[Dir(addr)]);
        NextPage(fb, fbEnd, addr);
        label Before:
        MapPage(addr, addr, flags);
        ConfinedTwice(m0, pd, bits0, m1, pd, bits1, ram.mem, pd, frames.Bits());
        forall v: u32 ensures Map(v) == if Framed(fb, addr + PAGE_SIZE, v) && !Huge(pd[Dir(v)]) then Some(Uncached(v)) else old(Map(v)) {
          FramedNext(fb, addr, v);
          if v / 4096 == addr / 4096 {
            SamePage(v, addr);
            FramebufferFlags(addr, v);
          }
        }
        addr := addr + PAGE_SIZE;
      }
      forall v: u32 ensures Framed(fb, addr, v) <==> Framed(fb, fbEnd, v) { FramedEnd(fb, addr, fbEnd, v); }
    }

    /** The first loop of vmm_map_framebuffer. */
    method SplitSlots(fb: u32, size: u32, start4: u32, end4: u32)
      requires Valid() && KernelShape() && start4 == BigFrame(fb) && end4 % BIG == 0
      requires fb + size <= TOP ==> end4 == RoundUp(fb + size)
      modifies ram`mem, pageDirectory, frames`usedPages, frames`lastAllocHint, frames.bitmap
      ensures Valid() && KernelShape() && |ram.mem| == |old(ram.mem)|
      ensures Confined(old(ram.mem), old(pageDirectory[..]), old(frames.Bits()), ram.mem, pageDirectory[..], frames.Bits())
      ensures forall v: u32 :: Map(v) == old(Map(v))
      ensures old(Enough(fb, size)) ==> forall d :: 0 <= d < 1024 && start4 <= BIG * d < end4 ==> !Huge(pageDirectory[d])
      ensures end4 <= start4 ==> pageDirectory[..] == old(pageDirectory[..])
      ensures old(Used(frames.Bits(), 0)) && SlotLeft(pageDirectory[..], start4, end4) ==> EveryUsed(frames.Bits())
    {
      hide Used, Present, Huge, User, DirectoryOk, Translate, CountUsed, SetPage, RoundUp, Tab, Dir, Confined, Counts, SlotLeft, EveryUsed;
      var addr: u32 := start4;
      var k := start4 / BIG;
      ghost var pd0: Directory, m0, bits0, enough := pageDirectory[..], ram.mem, frames.Bits(), Enough(fb, size);
      ConfinedFrames(m0, pd0, bits0, bits0, 0);
      SlotLeftWithin(pd0, start4, start4, start4);
      while addr < end4
        invariant addr == BIG * k && start4 <= addr && (addr <= end4 || addr == start4)
        invariant Valid() && KernelShape() && |ram.mem| == |old(ram.mem)|
        invariant enough ==> Counts() && (start4 <= end4 ==> frames.usedPages + (end4 - addr) / BIG <= MAX_PAGES)
        invariant enough ==> forall d :: 0 <= d < 1024 && start4 <= BIG * d < addr ==> !Huge(pageDirectory[d])
        invariant end4 <= start4 ==> pageDirectory[..] == old(pageDirectory[..])
        invariant old(Used(frames.Bits(), 0)) && SlotLeft(pageDirectory[..], start4, addr) ==> EveryUsed(frames.Bits())
        invariant Confined(m0, pd0, bits0, ram.mem, pageDirectory[..], frames.Bits())
        invariant forall v: u32 :: Map(v) == old(Map(v))
      {
        ghost var pd: Directory, m1, bits1 := pageDirectory[..], ram.mem, frames.Bits();
        NextSlot(addr, end4, k);
        SplitSlot(addr, k);
        ConfinedUsed(m0, pd0, bits0, m1, pd, bits1);
        ConfinedUsed(m1, pd, bits1, ram.mem, pageDirectory[..], frames.Bits());
        SlotLeftNext(pd, pageDirectory[..], start4, k);
        ConfinedTwice(m0, pd0, bits0, m1, pd, bits1, ram.mem, pageDirectory[..], frames.Bits());
        k := k + 1;
        addr := addr + BIG;
      }
      SlotLeftWithin(pageDirectory[..], start4, addr, end4);
    }
  }
}
