/** What the steps of kernel/heap.c do to memory, the block list and the slab pages, on values: the lemmas
    behind the methods of Heap. */
module HeapSteps {
  import opened Arith
  import opened Base
  import opened HeapList
  import opened HeapLinks
  import opened SlabPages
  import opened HeapOwner
  import opened Pmm

  function AddrOf(L: Blocks, i: nat): int { if i < |L| then L[i].addr else 0 }

  /** The header of a remainder lies in the free block it is cut from. */
  lemma SplitInMem(m: Mem, L: Blocks, base: int, end: int, k: nat, size: int)
    requires Tiles(L, base, end) && end <= 4 * |m| && end < WORD && k < |L|
    requires Splits(L[k], size) && size >= 0 && size % 16 == 0
    ensures var n := SplitAddr(L, k, size);
      && InMem(m, n) && InMem(m, n + 4) && InMem(m, n + 8) && InMem(m, n + 12) && n % 16 == 0
      && L[k].addr + HEADER <= n && n + HEADER <= EndOf(L[k]) <= end
  {
    InTile(L, base, end, k);
    BlockAt(L, base, end, k);
    var n := SplitAddr(L, k, size);
    assert n % 16 == 0 by { AddMod16(L[k].addr, size); }
    WordsInMem(m, n);
  }

  lemma HeaderWords(m: Mem, L: Blocks, base: int, end: int, k: nat)
    requires Tiles(L, base, end) && end <= 4 * |m| && k < |L|
    ensures var a := L[k].addr; a > 0 && InMem(m, a) && InMem(m, a + 4) && InMem(m, a + 8) && InMem(m, a + 12)
    ensures L[k].size >= 0
  {
    InTile(L, base, end, k);
    BlockAt(L, base, end, k);
    WordsInMem(m, L[k].addr);
  }

  lemma AddMod16(a: int, b: int)
    requires a % 16 == 0 && b % 16 == 0
    ensures (a + 16 + b) % 16 == 0
  {
  }

  lemma AlignUp(start: int, size: int)
    requires start >= 0 && start % 4 == 0 && size % 4 == 0
    ensures var adjust := if start % 16 != 0 then 16 - start % 16 else 0;
      && (start + adjust) % 16 == 0 && start + adjust == (start + 15) / 16 * 16 && 0 <= adjust <= 12
      && (size - adjust) % 4 == 0
  {
    var q, r, w, z := start / 16, start % 16, start / 4, size / 4;
    assert start == 16 * q + r == 4 * w && size == 4 * z;
    assert r == 4 * (w - 4 * q);
    assert (start + 15) / 16 == if r == 0 then q else q + 1;
    assert r != 0 ==> size - (16 - r) == 4 * (z - 4 + w - 4 * q);
  }

  /** One free block over the whole region. */
  lemma OneBlock(m: Mem, a: int, n: int)
    requires a > 0 && a % 16 == 0 && n >= HEADER && n % 4 == 0
    requires HeaderAt(m, Block(a, n - HEADER, true), 0, 0)
    ensures var L := [Block(a, n - HEADER, true)]; Tiles(L, a, a + n) && Linked(m, L) && Coalesced(L)
  {
    hide HeaderAt;
    var L := [Block(a, n - HEADER, true)];
    assert (n - HEADER) % 4 == 0;
    assert HeaderOk(m, L, 0);
  }

  lemma WordsInMem(m: Mem, n: int)
    requires n % 16 == 0 && 0 <= n && n + HEADER <= 4 * |m|
    ensures InMem(m, n) && InMem(m, n + 4) && InMem(m, n + 8) && InMem(m, n + 12)
  {
  }

  lemma NextInMem(m: Mem, L: Blocks, base: int, end: int, k: nat, size: int)
    requires Tiles(L, base, end) && Linked(m, L) && end <= 4 * |m| && k + 1 < |L|
    ensures InMem(m, L[k + 1].addr + 12) && L[k + 1].addr > 0 && EndOf(L[k]) <= L[k + 1].addr
  {
    assert HeaderOk(m, L, k + 1);
    BlockAt(L, base, end, k + 1);
    Ordered(L, base, end, k, k + 1);
  }

  /** What the split reads of block k, and that everything it writes is memory. */
  lemma SplitReady(m: Mem, L: Blocks, base: int, end: int, k: nat, size: int)
    requires Tiles(L, base, end) && Linked(m, L) && end <= 4 * |m| && end < WORD && k < |L|
    requires Splits(L[k], size) && size >= 0 && size % 16 == 0
    ensures var a, n := L[k].addr, SplitAddr(L, k, size);
      && a > 0 && InMem(m, a) && InMem(m, a + 8) && InMem(m, n) && InMem(m, n + 4) && InMem(m, n + 8) && InMem(m, n + 12)
      && n == a + HEADER + size && n + HEADER < WORD && Ld(m, a) == L[k].size && Ld(m, a + 8) == NextAddr(L, k)
      && 0 <= L[k].size - size - HEADER
    ensures NextAddr(L, k) != 0 ==> InMem(m, NextAddr(L, k) + 12) && k + 1 < |L|
    ensures k + 1 < |L| ==> NextAddr(L, k) == L[k + 1].addr > 0
  {
    hide Tiles, Linked, Ld, WordAt, Flag;
    LinkedAt(m, L, k);
    HeaderWords(m, L, base, end, k);
    SplitInMem(m, L, base, end, k, size);
    if k + 1 < |L| { NextInMem(m, L, base, end, k, size); }
  }

  /** The header of block k is still readable after the remainder's was written. */
  lemma SplitFirst(m: Mem, m1: Mem, L: Blocks, base: int, end: int, k: nat, size: int)
    requires Tiles(L, base, end) && Linked(m, L) && end <= 4 * |m| && end < WORD && k < |L|
    requires Splits(L[k], size) && size >= 0 && size % 16 == 0
    requires var n := SplitAddr(L, k, size); DiffersAt(m, m1, {n, n + 4, n + 8, n + 12})
    ensures |m1| == |m| && InMem(m1, L[k].addr + 8) && Ld(m1, L[k].addr + 8) == NextAddr(L, k)
  {
    hide Tiles, Linked, Ld, WordAt, Flag;
    SplitReady(m, L, base, end, k, size);
  }

  /** The stores after the remainder's header: the back link of the next block, then size and next of block k. */
  predicate SplitWrites(m1: Mem, m': Mem, a: int, n: int, next: int, size: u32) {
    0 <= n < WORD && InMem(m1, a) && InMem(m1, a + 8) &&
    if next != 0 then InMem(m1, next + 12) && m' == St(St(St(m1, next + 12, n), a, size), a + 8, n)
    else m' == St(St(m1, a, size), a + 8, n)
  }

  /** The stores of the split leave the two headers and the back link that the new list has. */
  lemma SplitStores(m: Mem, m1: Mem, m': Mem, L: Blocks, base: int, end: int, k: nat, size: u32)
    requires Tiles(L, base, end) && Linked(m, L) && end <= 4 * |m| && end < WORD && k < |L|
    requires L[k].free && Splits(L[k], size) && size % 16 == 0 && |m1| == |m|
    requires var a, n, next := L[k].addr, SplitAddr(L, k, size), NextAddr(L, k);
      && DiffersAt(m, m1, {n, n + 4, n + 8, n + 12}) && HeaderAt(m1, Block(n, L[k].size - size - HEADER, true), next, a)
      && SplitWrites(m1, m', a, n, next, size)
    ensures DiffersAt(m, m', SplitCells(L, k, size))
    ensures var a, n := L[k].addr, SplitAddr(L, k, size);
      && HeaderAt(m', Block(a, size, true), n, PrevAddr(L, k))
      && HeaderAt(m', Block(n, L[k].size - size - HEADER, true), NextAddr(L, k), a)
      && (k + 1 < |L| ==> InMem(m', L[k + 1].addr + 12) && Ld(m', L[k + 1].addr + 12) == n)
  {
    hide Tiles, Linked, Ld, St, WordAt, Flag;
    LinkedAt(m, L, k);
    HeaderWords(m, L, base, end, k);
    SplitInMem(m, L, base, end, k, size);
    if k + 1 < |L| { NextInMem(m, L, base, end, k, size); }
  }

  lemma LinkedAt(m: Mem, L: Blocks, k: nat)
    requires Linked(m, L) && k < |L|
    ensures HeaderAt(m, L[k], NextAddr(L, k), PrevAddr(L, k))
  {
    assert HeaderOk(m, L, k);
  }

  /** What the header of block k reads. */
  lemma HeaderReads(m: Mem, L: Blocks, base: int, end: int, k: nat)
    requires Tiles(L, base, end) && Linked(m, L) && end <= 4 * |m| && k < |L|
    ensures var a := L[k].addr;
      && base <= a && a + HEADER <= end && InMem(m, a) && InMem(m, a + 4) && InMem(m, a + 8) && InMem(m, a + 12)
      && Ld(m, a) == L[k].size && Flag(Ld(m, a + 4)) == L[k].free && Ld(m, a + 8) == NextAddr(L, k) && Ld(m, a + 12) == PrevAddr(L, k)
  {
    hide Tiles, Linked, Ld, WordAt, Flag;
    HeaderWords(m, L, base, end, k);
    LinkedAt(m, L, k);
    InTile(L, base, end, k);
  }

  /** What taking block k keeps of the list. */
  lemma TakeKeeps(L: Blocks, base: int, end: int, k: nat, size: int)
    requires Tiles(L, base, end) && Coalesced(L) && LastOk(L) && k < |L| && Fits(L[k], size) && size >= 0 && size % 16 == 0
    ensures var T := Take(L, k, size);
      && Tiles(T, base, end) && Coalesced(T) && LastOk(T) && k < |T| && T[k].addr == L[k].addr && !T[k].free
      && (!Splits(L[k], size) ==> T[k := T[k].(free := true)] == L)
  {
    hide Tiles, Coalesced, Take;
    TakeShape(L, k, size);
    TakeTiles(L, base, end, k, size);
    TakeCoalesced(L, k, size);
    TakeLast(L, k, size);
  }

  /** Clearing the free flag of block k. */
  lemma FlagTaken(m0: Mem, m1: Mem, m2: Mem, T: Blocks, F: Blocks, base: int, end: int, k: nat)
    requires Tiles(T, base, end) && Tiles(F, base, end) && k < |T| && !T[k].free && F == T[k := T[k].(free := true)]
    requires Linked(m1, F) && OnlyHeaders(m0, m1, T) && end <= 4 * |m1| && InMem(m1, F[k].addr + 4)
    requires m2 == St(m1, F[k].addr + 4, SetFlag(Ld(m1, F[k].addr + 4), false))
    ensures Linked(m2, T) && OnlyHeaders(m0, m2, T)
  {
    hide Tiles, Linked, Ld, St, WordAt, Flag, SetFlag, OnlyHeaders;
    FlagLinked(m1, m2, F, base, end, k, false);
    assert F[k := F[k].(free := false)] == T;
    SameHeaders(F, T);
    OnlyHeadersTwice(m0, m1, m2, T, F);
  }

  /** The block after k, or none. */
  lemma NextOrFirst(L: Blocks, base: int, end: int, k: nat)
    requires Tiles(L, base, end) && k < |L|
    ensures L[0].addr == base && (NextAddr(L, k) == 0 <==> k + 1 == |L|) && 0 <= NextAddr(L, k)
    ensures k + 1 < |L| ==> NextAddr(L, k) == L[k + 1].addr
  {
    hide Tiles;
    TileEnds(L, base, end);
    if k + 1 < |L| { BlockAt(L, base, end, k + 1); }
  }

  /** What joining block k with the next one reads, and that the words it writes are different ones. */
  lemma JoinReady(m: Mem, L: Blocks, base: int, end: int, k: nat)
    requires Tiles(L, base, end) && Linked(m, L) && end <= 4 * |m| && end < WORD && k + 1 < |L|
    ensures var a, b, c := L[k].addr, L[k + 1].addr, NextAddr(L, k + 1);
      && InMem(m, a) && InMem(m, a + 8) && InMem(m, b) && InMem(m, b + 8) && a + HEADER <= b && 0 <= c
      && Ld(m, a) == L[k].size && Ld(m, a + 8) == b && Ld(m, b) == L[k + 1].size && Ld(m, b + 8) == c
      && 0 <= L[k].size + HEADER + L[k + 1].size < WORD
      && (c != 0 ==> k + 2 < |L| && c == L[k + 2].addr && InMem(m, c + 12) && b + HEADER <= c)
      && (c == 0 ==> k + 2 == |L|)
  {
    hide Tiles, Linked, Ld, WordAt, Flag;
    HeaderReads(m, L, base, end, k);
    HeaderReads(m, L, base, end, k + 1);
    NextOrFirst(L, base, end, k + 1);
    JoinFits(L, base, end, k);
    TileEnds(L, base, end);
    Ordered(L, base, end, k, k + 1);
    if k + 2 < |L| {
      HeaderReads(m, L, base, end, k + 2);
      Ordered(L, base, end, k + 1, k + 2);
    }
  }

  lemma SameTiles(L: Blocks, F: Blocks, base: int, end: int, k: nat)
    requires Tiles(L, base, end) && k < |L| && F == L[k := L[k].(free := true)]
    ensures Tiles(F, base, end)
  {
    FreeTiles(L, base, end, k);
  }

  lemma NothingWritten(m: Mem, L: Blocks)
    ensures OnlyHeaders(m, m, L)
  {
  }

  /** The headers of one list are headers of another. */
  ghost predicate HeadersWithin(A: Blocks, B: Blocks) {
    forall a :: InHeader(A, a) ==> InHeader(B, a)
  }

  lemma SameHeaders(A: Blocks, B: Blocks)
    requires |A| == |B| && forall i :: 0 <= i < |A| ==> A[i].addr == B[i].addr
    ensures HeadersWithin(A, B) && HeadersWithin(B, A)
  {
    forall a | InHeader(A, a) ensures InHeader(B, a) {
      var i :| 0 <= i < |A| && A[i].addr <= a < A[i].addr + HEADER;
      assert B[i].addr == A[i].addr;
    }
    forall a | InHeader(B, a) ensures InHeader(A, a) {
      var i :| 0 <= i < |B| && B[i].addr <= a < B[i].addr + HEADER;
      assert A[i].addr == B[i].addr;
    }
  }

  lemma JoinHeaders(L: Blocks, k: nat)
    requires k + 1 < |L|
    ensures HeadersWithin(Join(L, k), L)
  {
    hide Join;
    JoinShape(L, k);
    var J := Join(L, k);
    forall a | InHeader(J, a) ensures InHeader(L, a) {
      var i :| 0 <= i < |J| && J[i].addr <= a < J[i].addr + HEADER;
      assert L[if i <= k then i else i + 1].addr == J[i].addr;
    }
  }

  lemma SubHeaders(A: Blocks, B: Blocks, C: Blocks)
    requires (A == B || HeadersWithin(A, B)) && HeadersWithin(B, C)
    ensures HeadersWithin(A, C)
  {
    hide InHeader;
  }

  lemma OnlyHeadersTwice(m: Mem, m1: Mem, m2: Mem, L: Blocks, L1: Blocks)
    requires OnlyHeaders(m, m1, L) && OnlyHeaders(m1, m2, L1) && HeadersWithin(L1, L)
    ensures OnlyHeaders(m, m2, L)
  {
    hide InHeader, Ld, WordAt;
  }

  /** The size of two joined blocks is a 32-bit size. */
  lemma JoinFits(L: Blocks, base: int, end: int, k: nat)
    requires Tiles(L, base, end) && k + 1 < |L|
    ensures 0 <= L[k].size && 0 <= L[k + 1].size && L[k].size + HEADER + L[k + 1].size <= end - base
  {
    InTile(L, base, end, k);
    InTile(L, base, end, k + 1);
    Ordered(L, base, end, k, k + 1);
  }

  /** `addr & ~(SLAB_PAGE_SIZE - 1)` */
  function PageOf(a: int): int { a / PAGE * PAGE }

  /** `page->free_count++` and `page->free_count--`: the upper 16 bits of the word. */
  function IncCount(w: u32): u32 { w % 0x1_0000 + 0x1_0000 * ((w / 0x1_0000 + 1) % 0x1_0000) }

  function DecCount(w: u32): u32 { w % 0x1_0000 + 0x1_0000 * ((w / 0x1_0000 + 0xFFFF) % 0x1_0000) }

  lemma CountUp(c: nat, n: nat)
    requires c < CLASSES && n < 0xFFFF
    ensures IncCount(ClassSize(c) + 0x1_0000 * n) == ClassSize(c) + 0x1_0000 * (n + 1)
  {
    SlotsNonEmpty(c);
    HalfWords(ClassSize(c), n);
  }

  lemma CountDown(c: nat, n: nat)
    requires c < CLASSES && 0 < n < 0xFFFF
    ensures DecCount(ClassSize(c) + 0x1_0000 * n) == ClassSize(c) + 0x1_0000 * (n - 1)
  {
    SlotsNonEmpty(c);
    HalfWords(ClassSize(c), n);
  }

  lemma HalfWords(s: int, n: nat)
    requires 0 <= s < 0x1_0000 && n <= 0xFFFF
    ensures (s + 0x1_0000 * n) % 0x1_0000 == s && (s + 0x1_0000 * n) / 0x1_0000 == n && s + 0x1_0000 * n < WORD
  {
  }

  /** The first block: the page header rounded up to the block size is one block. */
  lemma FirstSlot(page: int, c: nat)
    requires c < CLASSES && page % PAGE == 0 && page > 0
    ensures (page + 12 + ClassSize(c) - 1) / ClassSize(c) * ClassSize(c) == page + ClassSize(c)
    ensures forall a :: IsSlot(page, c, a) ==> a >= page + ClassSize(c)
    ensures ClassSize(c) % ClassSize(c) == 0 && 2 * ClassSize(c) <= PAGE
  {
    var q := page / PAGE;
    match c
    case 0 => assert page == 16 * (256 * q);
    case 1 => assert page == 32 * (128 * q);
    case 2 => assert page == 64 * (64 * q);
    case 3 => assert page == 128 * (32 * q);
    case _ => assert page == 256 * (16 * q);
  }

  /** The block at the carving offset is not on the list yet. */
  lemma NewSlot(m: Mem, p: Page, a: int)
    requires PageOk(m, p) && (a - p.addr) % ClassSize(p.cls) == 0
    requires p.addr + ClassSize(p.cls) <= a && a + ClassSize(p.cls) <= p.addr + PAGE
    requires forall b :: b in p.free ==> b < a
    ensures LiveSlot(p, a) && InMem(m, a) && 0 < a < WORD && p.addr + 16 <= a < p.addr + PAGE
    ensures |p.free| < 0xFFFF
  {
    hide PageShape, ClassSize;
    PageAligned(m, p);
    SlotsNonEmpty(p.cls);
    SlotInMem(m, p, a);
    FreeCountSmall(p);
  }

  lemma PageHeader(m: Mem, p: Page)
    requires PageOk(m, p)
    ensures InMem(m, p.addr) && InMem(m, p.addr + 4) && InMem(m, p.addr + 8) && 0 <= p.addr < WORD
    ensures Ld(m, p.addr + 4) == ClassSize(p.cls) + 0x1_0000 * |p.free| && Ld(m, p.addr + 8) == Head(p.free)
    ensures PageShape(m, p)
  {
  }

  lemma KeepShape(m: Mem, m': Mem, p: Page)
    requires PageShape(m, p) && |m'| == |m|
    ensures PageShape(m', p)
  {
  }

  lemma NextSlot(page: int, c: nat, a: int)
    requires c < CLASSES && (a - page) % ClassSize(c) == 0
    ensures (a + ClassSize(c) - page) % ClassSize(c) == 0
    ensures forall b :: IsSlot(page, c, b) && b < a + ClassSize(c) ==> b <= a
  {
    var s := ClassSize(c);
    forall b | IsSlot(page, c, b) && b < a + s ensures b <= a {
      if b > a { Multiples(b - page, a - page, c); }
    }
    Multiples(a + s - page, a - page, c);
  }

  lemma Multiples(x: int, y: int, c: nat)
    requires c < CLASSES && y % ClassSize(c) == 0
    ensures x % ClassSize(c) == 0 && x > y ==> x >= y + ClassSize(c)
    ensures x == y + ClassSize(c) ==> x % ClassSize(c) == 0
  {
    match c
    case 0 => Next16(x, y);
    case 1 => Next32(x, y);
    case 2 => Next64(x, y);
    case 3 => Next128(x, y);
    case _ => Next256(x, y);
  }

  lemma LastSlot(page: int, c: nat, offset: int)
    requires c < CLASSES && offset + ClassSize(c) > page + PAGE
    ensures forall a :: IsSlot(page, c, a) ==> a < offset
  {
  }

  lemma NothingMoved(m: Mem, L: Blocks, pages: seq<Page>)
    ensures Kept(m, m, L, pages)
  {
  }

  /** Marking one more frame gives none back. */
  lemma FramesGrow(a: Bitmap, b: Bitmap, page: u32)
    requires a == b || (page / PAGE_SIZE < MAX_PAGES && b == SetPage(a, page / PAGE_SIZE))
    ensures UsedKept(a, b)
    ensures a != b ==> page / PAGE_SIZE < MAX_PAGES && Used(b, page / PAGE_SIZE)
  {
    hide Used, SetPage;
    if a != b { SetPageUsed(a, page / PAGE_SIZE); }
  }

  /** A frame that was not in use is no slab page and not in the heap region. */
  lemma FreshFrame(bits: Bitmap, page: u32, pages: seq<Page>, m: Mem, base: int, end: int)
    requires page % PAGE_SIZE == 0 && page / PAGE_SIZE < MAX_PAGES && !Used(bits, page / PAGE_SIZE)
    requires forall i :: 0 <= i < |pages| ==> InUse(bits, pages[i].addr)
    requires forall p :: 0 <= p < MAX_PAGES && p * PAGE_SIZE < end && base < (p + 1) * PAGE_SIZE ==> Used(bits, p)
    requires PagesOk(m, pages)
    ensures page + PAGE <= base || end <= page
    ensures forall i :: 0 <= i < |pages| ==> pages[i].addr != page && (pages[i].addr + PAGE <= page || page + PAGE <= pages[i].addr)
    ensures page + PAGE <= MAX_PAGES * PAGE_SIZE
  {
    hide Used, PagesOk, PageOk;
    var k := page / PAGE_SIZE;
    assert page == k * PAGE_SIZE;
    forall i | 0 <= i < |pages|
      ensures pages[i].addr != page && (pages[i].addr + PAGE <= page || page + PAGE <= pages[i].addr)
    {
      PageIs(m, pages, i);
      PageAligned(m, pages[i]);
      AlignedApart(pages[i].addr, page);
    }
  }

  lemma FrameWords(m: Mem, page: int)
    requires page % PAGE == 0 && 0 <= page && page + PAGE <= 4 * |m|
    ensures InMem(m, page) && InMem(m, page + 4) && InMem(m, page + 8)
  {
  }

  lemma SizeFits(c: nat)
    requires c < CLASSES
    ensures 0 < ClassSize(c) < WORD
  {
  }

  lemma EmptyPageOk(m: Mem, page: int, cls: nat)
    requires page > 0 && page % PAGE == 0 && page + PAGE <= 4 * |m| && page + PAGE <= WORD && cls < CLASSES
    requires InMem(m, page) && InMem(m, page + 4) && InMem(m, page + 8)
    requires Ld(m, page + 4) == ClassSize(cls) && Ld(m, page + 8) == 0
    ensures PageOk(m, Page(page, cls, []))
  {
  }

  /** The three header words of a new slab page. */
  lemma NewHeader(m: Mem, page: int, cls: nat, head: u32)
    requires page > 0 && page % PAGE == 0 && page + PAGE <= 4 * |m| && page + PAGE <= WORD && cls < CLASSES
    requires InMem(m, page) && InMem(m, page + 4) && InMem(m, page + 8) && 0 < ClassSize(cls) < WORD
    ensures var m1 := St(St(St(m, page, head), page + 4, ClassSize(cls)), page + 8, 0);
      RangeOnly(m, m1, page, page + PAGE) && Ld(m1, page) == head && PageOk(m1, Page(page, cls, []))
  {
    hide Ld, St, WordAt, ClassSize;
    var m1 := St(St(St(m, page, head), page + 4, ClassSize(cls)), page + 8, 0);
    EmptyPageOk(m1, page, cls);
  }

  lemma HeadIs(pages: seq<Page>, heads: seq<u32>, tracked: seq<u32>, c: nat)
    requires TablesOk(pages, heads, tracked) && c < CLASSES
    ensures |heads| == CLASSES && heads[c] == AddrAt(pages, LastOf(pages, |pages|, c))
  {
  }

  lemma RangeTwice(m: Mem, m1: Mem, m2: Mem, lo: int, hi: int)
    requires RangeOnly(m, m1, lo, hi) && RangeOnly(m1, m2, lo, hi)
    ensures RangeOnly(m, m2, lo, hi)
  {
    hide Ld, WordAt;
  }

  lemma TablesGrow(pages: seq<Page>, q: Page, heads: seq<u32>, heads': seq<u32>, tracked: seq<u32>, tracked': seq<u32>)
    requires TablesOk(pages, heads, tracked) && q.cls < CLASSES && 0 <= q.addr < WORD
    requires heads' == heads[q.cls := q.addr]
    requires tracked' == if |tracked| < 128 then tracked + [q.addr] else tracked
    ensures TablesOk(pages + [q], heads', tracked')
  {
    hide LastOf;
    var pages' := pages + [q];
    forall c | 0 <= c < CLASSES ensures heads'[c] == AddrAt(pages', LastOf(pages', |pages'|, c)) {
      LastOfNext(pages, q, c);
    }
  }

  lemma LastOfNext(pages: seq<Page>, q: Page, c: nat)
    ensures var n := |pages|;
      LastOf(pages + [q], n + 1, c) == if q.cls == c then n else LastOf(pages, n, c)
  {
    LastOfSame(pages, pages + [q], |pages|, c);
  }

  /** The block list does not see writes outside the heap region. */
  lemma ListFrame(m: Mem, m': Mem, lo: int, hi: int, L: Blocks, base: int, end: int)
    requires RangeOnly(m, m', lo, hi) && (hi <= base || end <= lo)
    requires Tiles(L, base, end) && Linked(m, L)
    ensures Linked(m', L)
  {
    hide Tiles, Ld, WordAt;
    forall i | 0 <= i < |L| ensures HeaderOk(m', L, i) {
      assert HeaderOk(m, L, i);
      InTile(L, base, end, i);
      HeaderFrame(m, m', lo, hi, L[i], NextAddr(L, i), PrevAddr(L, i));
    }
  }

  lemma HeaderFrame(m: Mem, m': Mem, lo: int, hi: int, b: Block, next: int, prev: int)
    requires RangeOnly(m, m', lo, hi) && (hi <= b.addr || b.addr + HEADER <= lo) && HeaderAt(m, b, next, prev)
    ensures HeaderAt(m', b, next, prev)
  {
  }

  lemma OutsideGrow(pages: seq<Page>, q: Page, base: int, end: int)
    requires Outside(pages, base, end) && (q.addr + PAGE <= base || end <= q.addr)
    ensures Outside(pages + [q], base, end)
  {
  }

  ghost predicate InPages(pages: seq<Page>, a: int) {
    exists i :: 0 <= i < |pages| && pages[i].addr <= a < pages[i].addr + PAGE
  }

  /** Frames in use for something else, page tables for instance, keep their contents. */
  ghost predicate ForeignKept(m: Mem, m': Mem, bits: Bitmap, pages: seq<Page>, base: int, end: int) {
    && |m'| == |m|
    && forall a {:trigger Ld(m', a)} ::
         InMem(m, a) && InUse(bits, a) && !(base <= a < end) && !InPages(pages, a) ==> Ld(m', a) == Ld(m, a)
  }

  lemma NothingForeign(m: Mem, bits: Bitmap, pages: seq<Page>, base: int, end: int)
    ensures ForeignKept(m, m, bits, pages, base, end)
  {
  }

  lemma SameFrame(a: int, page: int)
    requires page % PAGE == 0
    ensures page <= a < page + PAGE ==> a / PAGE_SIZE == page / PAGE_SIZE
  {
  }

  lemma ForeignStep(m0: Mem, m1: Mem, m2: Mem, bits: Bitmap, page: int, pages: seq<Page>, base: int, end: int)
    requires ForeignKept(m0, m1, bits, pages, base, end) && RangeOnly(m1, m2, page, page + PAGE) && page % PAGE == 0
    requires !InUse(bits, page) || exists i :: 0 <= i < |pages| && pages[i].addr == page
    ensures ForeignKept(m0, m2, bits, pages, base, end)
  {
    hide Ld, WordAt, Used;
    forall a | InMem(m0, a) && InUse(bits, a) && !(base <= a < end) && !InPages(pages, a)
      ensures InMem(m2, a) && Ld(m2, a) == Ld(m0, a)
    {
      assert InMem(m1, a) && Ld(m1, a) == Ld(m0, a);
      SameFrame(a, page);
    }
  }

  lemma ForeignList(m0: Mem, m1: Mem, m2: Mem, bits: Bitmap, pages: seq<Page>, base: int, end: int)
    requires ForeignKept(m0, m1, bits, pages, base, end) && RangeOnly(m1, m2, base, end)
    ensures ForeignKept(m0, m2, bits, pages, base, end)
  {
    hide Ld, WordAt, InUse, InPages;
    forall a | InMem(m0, a) && InUse(bits, a) && !(base <= a < end) && !InPages(pages, a)
      ensures InMem(m2, a) && Ld(m2, a) == Ld(m0, a)
    {
      assert InMem(m1, a) && Ld(m1, a) == Ld(m0, a);
    }
  }

  /** Pages stay where they are; new ones come at the end. */
  ghost predicate SamePlaces(a: seq<Page>, b: seq<Page>) {
    |a| <= |b| && forall i :: 0 <= i < |a| ==> b[i].addr == a[i].addr
  }

  /** Pages from the n-th on lie in frames that were free. */
  ghost predicate FreshPages(n: nat, pages: seq<Page>, bits: Bitmap) {
    forall i :: n <= i < |pages| ==> !InUse(bits, pages[i].addr)
  }

  // ---- what kmalloc does, tier by tier

  /** slab_alloc: the newest page of the class with a free block hands out its first one; only when there is none a page
      is made, in a frame that was free, and hands out one of its blocks, all others being free. It fails only when every
      frame is used, if frame 0, which the frame allocator cannot hand out, is. */
  ghost predicate SlabStep(P: seq<Page>, bits: Bitmap, cls: nat, P': seq<Page>, p: int)
    requires cls < CLASSES
  {
    var i := Newest(P, |P|, cls);
    if i >= 0 then p != 0 && p == P[i].free[0] && P' == Popped(P, i)
    else if p != 0 then |P'| == |P| + 1 && P'[..|P|] == P && FirstOfPage(P'[|P|], bits, cls, p)
    else P' == P && (Used(bits, 0) ==> NoFrameLeft(bits))
  }

  ghost predicate NoFrameLeft(bits: Bitmap) { forall q :: 0 <= q < MAX_PAGES ==> Used(bits, q) }

  ghost predicate FirstOfPage(pg: Page, bits: Bitmap, cls: nat, p: int)
    requires cls < CLASSES
  {
    && pg.cls == cls && pg.addr > 0 && pg.addr % PAGE == 0 && !InUse(bits, pg.addr) && IsSlot(pg.addr, cls, p) && p !in pg.free
    && forall a :: IsSlot(pg.addr, cls, a) && a != p ==> a in pg.free
  }

  lemma FirstOfNew(m: Mem, pg: Page, bits: Bitmap)
    requires PageOk(m, pg) && pg.free != [] && pg.cls < CLASSES && pg.addr > 0 && pg.addr % PAGE == 0 && !InUse(bits, pg.addr)
    requires forall a :: IsSlot(pg.addr, pg.cls, a) ==> a in pg.free
    ensures FirstOfPage(pg.(free := pg.free[1..]), bits, pg.cls, pg.free[0])
  {
    hide Ld, WordAt, InUse, IsSlot, LinkOk, PageShape;
    var rest := pg.free[1..];
    assert IsSlot(pg.addr, pg.cls, pg.free[0]);
    assert pg.free == [pg.free[0]] + rest;
    forall k | 0 <= k < |rest| ensures rest[k] != pg.free[0] { assert rest[k] == pg.free[k + 1]; }
  }

  lemma StepFound(P: seq<Page>, bits: Bitmap, cls: nat, i: nat, p: int)
    requires cls < CLASSES && i < |P| && P[i].cls == cls && P[i].free != [] && p != 0 && p == P[i].free[0]
    requires forall j :: i < j < |P| && P[j].cls == cls ==> P[j].free == []
    ensures SlabStep(P, bits, cls, Popped(P, i), p)
  {
    assert Newest(P, |P|, cls) == i;
  }

  lemma StepMade(P: seq<Page>, bits: Bitmap, cls: nat, P': seq<Page>, p: int)
    requires cls < CLASSES && p != 0 && (forall j :: 0 <= j < |P| && P[j].cls == cls ==> P[j].free == [])
    requires |P'| == |P| + 1 && P'[..|P|] == P && FirstOfPage(P'[|P|], bits, cls, p)
    ensures SlabStep(P, bits, cls, P', p)
  {
    hide FirstOfPage;
  }

  lemma StepFailed(P: seq<Page>, bits: Bitmap, cls: nat)
    requires cls < CLASSES && (forall j :: 0 <= j < |P| && P[j].cls == cls ==> P[j].free == []) && (Used(bits, 0) ==> NoFrameLeft(bits))
    ensures SlabStep(P, bits, cls, P, 0)
  {
    hide NoFrameLeft, Used;
  }

  /** The slab tier can serve the class. */
  ghost predicate SlabCan(P: seq<Page>, bits: Bitmap, cls: nat) {
    (exists i :: 0 <= i < |P| && P[i].cls == cls && P[i].free != []) || (Used(bits, 0) && !NoFrameLeft(bits))
  }

  /** It hands out a block exactly when the pages change. */
  lemma StepChanges(P: seq<Page>, bits: Bitmap, cls: nat, P': seq<Page>, p: int)
    requires cls < CLASSES && SlabStep(P, bits, cls, P', p)
    ensures p != 0 <==> P' != P
  {
    hide Used, IsSlot, InUse, FirstOfPage, NoFrameLeft;
    var i := Newest(P, |P|, cls);
    if i >= 0 { assert |P'[i].free| != |P[i].free|; }
  }

  lemma SlabServes(P: seq<Page>, bits: Bitmap, cls: nat, P': seq<Page>, p: int)
    requires cls < CLASSES && SlabStep(P, bits, cls, P', p) && SlabCan(P, bits, cls)
    ensures p != 0
  {
    hide Used, IsSlot, InUse;
  }

  /** Neither tier can serve a request of this size. */
  ghost predicate NoRoom(L: Blocks, P: seq<Page>, bits: Bitmap, size: u32) {
    && (forall i :: 0 <= i < |L| ==> !Fits(L[i], RoundUp(size)))
    && (RoundUp(size) <= MAX_SLAB ==> !SlabCan(P, bits, ClassFor(RoundUp(size))))
  }

  /** The list half of kmalloc: the block next-fit finds, cut to size, and the hint moved on behind it. */
  ghost predicate ListStep(L: Blocks, hint: nat, need: int, L': Blocks, hint': nat, p: int)
    requires hint <= |L|
  {
    var k := NextFit(L, hint, need);
    if k < 0 then p == 0 && L' == L && hint' == hint
    else p == L[k].addr + HEADER && L' == Take(L, k, need) && hint' == if k + 1 < |L'| then k + 1 else 0
  }

  /** What is taken is at least what was asked for and less than a header and 16 bytes more; what is cut off is a block of
      16 bytes at least. */
  lemma TakeExact(L: Blocks, k: nat, size: int)
    requires k < |L| && Fits(L[k], size)
    ensures var T := Take(L, k, size);
      && k < |T| && T[k].addr == L[k].addr && !T[k].free && size <= T[k].size < size + HEADER + 16
      && (|T| == |L| ==> T[k].size == L[k].size)
      && (|T| != |L| ==> |T| == |L| + 1 && T[k].size == size && T[k + 1].free && T[k + 1].size >= 16 &&
                         T[k].size + HEADER + T[k + 1].size == L[k].size)
  {
  }

  function FreeCountAt(m: Mem, page: int): int
    requires InMem(m, page + 4)
  {
    Ld(m, page + 4) / 0x1_0000
  }

  lemma FirstFree(m: Mem, p: Page)
    requires PageOk(m, p) && p.free != []
    ensures LinkOk(m, p.free, 0) && InMem(m, p.free[0]) && p.addr + 16 <= p.free[0] && |p.free| < 0xFFFF
  {
    hide PageShape, Ld, WordAt;
    PageAligned(m, p);
    PageHeader(m, p);
    assert IsSlot(p.addr, p.cls, p.free[0]);
    SlotInMem(m, p, p.free[0]);
    FreeCountSmall(p);
  }

  lemma SlotPage(addr: int, c: nat, a: int)
    requires addr % PAGE == 0 && c < CLASSES && IsSlot(addr, c, a)
    ensures PageOf(a) == addr
  {
    SlotsNonEmpty(c);
    assert addr <= a < addr + PAGE;
  }

  /** Page addresses are never 0, so a chain walk ends exactly at its end. */
  lemma NonZeroPages(m: Mem, pages: seq<Page>)
    requires PagesOk(m, pages)
    ensures forall i :: 0 <= i < |pages| ==> pages[i].addr > 0 && InMem(m, pages[i].addr) && InMem(m, pages[i].addr + 4)
  {
    hide PageOk;
    forall i | 0 <= i < |pages|
      ensures pages[i].addr > 0 && InMem(m, pages[i].addr) && InMem(m, pages[i].addr + 4)
    {
      PageIs(m, pages, i);
    }
  }

  /** A page replaced by one with other free blocks, after writes inside it. */
  lemma ReplacePage(m: Mem, m': Mem, cells: set<int>, L: Blocks, pages: seq<Page>, i: nat, q: Page,
                    heads: seq<u32>, tracked: seq<u32>, base: int, end: int)
    requires Tiles(L, base, end) && Linked(m, L) && PagesOk(m, pages) && Outside(pages, base, end)
    requires i < |pages| && q.addr == pages[i].addr && q.cls == pages[i].cls && PageOk(m', q)
    requires DiffersAt(m, m', cells) && forall c :: c in cells ==> q.addr < c < q.addr + PAGE
    requires TablesOk(pages, heads, tracked)
    ensures Linked(m', L) && PagesOk(m', pages[i := q]) && Outside(pages[i := q], base, end)
    ensures TablesOk(pages[i := q], heads, tracked) && RangeOnly(m, m', q.addr, q.addr + PAGE)
  {
    hide Tiles, Linked, PageOk, WordAt, LastOf;
    PageIs(m, pages, i);
    PageHeader(m, pages[i]);
    CellsInRange(m, m', cells, q.addr, q.addr + PAGE);
    PagesUpdate(m, m', pages, i, q);
    ListFrame(m, m', q.addr, q.addr + PAGE, L, base, end);
    var pages' := pages[i := q];
    forall c | 0 <= c < CLASSES ensures heads[c] == AddrAt(pages', LastOf(pages', |pages'|, c)) {
      LastOfSame(pages, pages', |pages|, c);
    }
  }

  lemma CellsInRange(m: Mem, m': Mem, cells: set<int>, lo: int, hi: int)
    requires DiffersAt(m, m', cells) && forall c :: c in cells ==> lo < c < hi
    ensures RangeOnly(m, m', lo, hi) && (InMem(m, lo) ==> Ld(m', lo) == Ld(m, lo))
  {
    hide Ld, WordAt;
  }

  lemma KeptTwice(m: Mem, m1: Mem, m2: Mem, L: Blocks, P0: seq<Page>, P1: seq<Page>)
    requires Kept(m, m1, L, P0) && Kept(m1, m2, L, P1)
    requires forall p, n :: SlabLive(P0, p, n) ==> SlabLive(P1, p, n)
    ensures Kept(m, m2, L, P0)
  {
    hide SlabLive, ListLive, Ld, WordAt;
    forall p, n, a | Owns(L, P0, p, n) && p <= a < p + n && InMem(m, a) ensures Ld(m2, a) == Ld(m, a) {
      assert Owns(L, P1, p, n);
      assert Ld(m1, a) == Ld(m, a);
    }
  }

  /** Pushing a block back writes only to it and to the page header. */
  lemma PushKeeps(m: Mem, m': Mem, cells: set<int>, L: Blocks, P0: seq<Page>, P1: seq<Page>, i: nat, a: int, base: int, end: int)
    requires Tiles(L, base, end) && PagesOk(m', P1) && Outside(P1, base, end) && i < |P1| && P1[i].cls < CLASSES
    requires a in P1[i].free && PageShape(m', P1[i]) && IsSlot(P1[i].addr, P1[i].cls, a)
    requires cells == HeaderCells(P1[i]) + {a} && DiffersAt(m, m', cells)
    ensures Kept(m, m', L, P1)
  {
    hide Tiles, PagesOk, Outside, WordAt, Ld, IsSlot, InLiveSlot, PageShape;
    SlotInMem(m', P1[i], a);
    HeaderNotLive(m', P1[i], P1[i].addr + 4);
    HeaderNotLive(m', P1[i], P1[i].addr + 8);
    FreeNotLive(m', P1[i], a);
    Reversed(m, m', cells);
    PageKeeps(m', m, cells, L, P1, base, end, i);
    KeptBack(m, m', L, P1);
  }

  lemma Reversed(m: Mem, m': Mem, cells: set<int>)
    requires DiffersAt(m, m', cells)
    ensures DiffersAt(m', m, cells)
  {
    hide Ld, WordAt;
    forall a | InMem(m', a) && a !in cells ensures InMem(m, a) && Ld(m, a) == Ld(m', a) {
      assert InMem(m, a);
      assert Ld(m', a) == Ld(m, a);
    }
  }

  lemma KeptBack(m: Mem, m': Mem, L: Blocks, P: seq<Page>)
    requires Kept(m', m, L, P)
    ensures Kept(m, m', L, P)
  {
    hide Owns, Ld, WordAt;
    forall p, n, a | Owns(L, P, p, n) && p <= a < p + n && InMem(m, a) ensures InMem(m', a) && Ld(m', a) == Ld(m, a) {
      assert InMem(m', a);
      assert Ld(m, a) == Ld(m', a);
    }
  }

  /** `(size + 15) & ~15` in 32 bits. */
  function RoundUp(size: u32): u32 { (size + 15) % WORD / 16 * 16 }

  lemma RoundUpIs(size: u32)
    ensures RoundUp(size) % 16 == 0
    ensures if size + 15 < WORD then size <= RoundUp(size) else RoundUp(size) == 0
  {
  }

  /** slab_class_for_size */
  function ClassFor(need: u32): (c: nat)
    requires need <= MAX_SLAB
    ensures c < CLASSES && need <= ClassSize(c)
    ensures c > 0 ==> ClassSize(c - 1) < need
  {
    if need <= 16 then 0 else if need <= 32 then 1 else if need <= 64 then 2 else if need <= 128 then 3 else 4
  }

  lemma ClassForFits(size: u32, need: u32)
    requires need == RoundUp(size) && need <= MAX_SLAB && size != 0
    ensures ClassSize(ClassFor(need)) >= size <==> size + 15 < WORD
  {
    RoundUpIs(size);
    SlotsNonEmpty(ClassFor(need));
  }

  /** A block of the slab tier is no block of the list. */
  lemma NotInList(m: Mem, L: Blocks, pages: seq<Page>, base: int, end: int, p: int, n: int, k: int)
    requires Tiles(L, base, end) && PagesOk(m, pages) && Outside(pages, base, end)
    requires SlabLive(pages, p, n)
    ensures !ListLive(L, p, k)
  {
    hide Tiles, PagesOk, Outside, SlabLive, ListLive;
    if ListLive(L, p, k) { ListApart(L, base, end, p, k, p, k); }
    SlabRange(m, pages, base, end, p, n);
    SlabSize(m, pages, p, n);
  }

  /** The slab pages do not see writes to headers of the block list. */
  lemma PagesAfterList(m: Mem, m': Mem, T: Blocks, pages: seq<Page>, base: int, end: int)
    requires Tiles(T, base, end) && OnlyHeaders(m, m', T) && PagesOk(m, pages) && Outside(pages, base, end)
    ensures PagesOk(m', pages)
  {
    hide Tiles, PagesOk;
    HeadersInRange(m, m', T, base, end);
    PagesFrame(m, m', pages, base, end);
  }

  lemma HeadersInRange(m: Mem, m': Mem, T: Blocks, base: int, end: int)
    requires Tiles(T, base, end) && OnlyHeaders(m, m', T)
    ensures RangeOnly(m, m', base, end)
  {
    hide Tiles, Ld, WordAt;
    forall a | InMem(m, a) && !(base <= a < end) ensures Ld(m', a) == Ld(m, a) {
      NotHeader(T, base, end, a);
    }
  }

  lemma NullNotOwned(m: Mem, L: Blocks, pages: seq<Page>, base: int, end: int)
    requires Tiles(L, base, end) && PagesOk(m, pages)
    ensures forall n :: !Owns(L, pages, 0, n)
  {
    hide Tiles, PagesOk;
    forall n ensures !Owns(L, pages, 0, n) {
      if ListLive(L, 0, n) {
        var k :| 0 <= k < |L| && IsLive(L[k], 0, n);
        BlockAt(L, base, end, k);
      }
      if SlabLive(pages, 0, n) {
        var i :| 0 <= i < |pages| && InSlab(pages[i], 0, n);
        PageIs(m, pages, i);
        SlotInMem(m, pages[i], 0);
      }
    }
  }

  lemma TrackedAre(pages: seq<Page>, heads: seq<u32>, tracked: seq<u32>)
    requires TablesOk(pages, heads, tracked)
    ensures |tracked| <= |pages|
  {
  }

  /** An owned pointer lies on the page of a slab exactly when it is a block of it. */
  lemma PageOfOwner(m: Mem, L: Blocks, pages: seq<Page>, base: int, end: int, p: int, n: nat)
    requires Tiles(L, base, end) && LastOk(L) && PagesOk(m, pages) && Outside(pages, base, end) && n <= |pages|
    requires exists k :: Owns(L, pages, p, k)
    ensures (exists i :: 0 <= i < n && pages[i].addr == PageOf(p)) <==> exists i, k :: 0 <= i < n && InSlab(pages[i], p, k)
  {
    hide Tiles, PagesOk, LastOk, IsSlot, PageShape, PageOk;
    var k :| Owns(L, pages, p, k);
    if i, j :| 0 <= i < n && InSlab(pages[i], p, j) {
      PageIs(m, pages, i);
      PageAligned(m, pages[i]);
      SlotPage(pages[i].addr, pages[i].cls, p);
    }
    if i :| 0 <= i < n && pages[i].addr == PageOf(p) {
      PageIs(m, pages, i);
      assert pages[i].addr <= p < pages[i].addr + PAGE;
      if ListLive(L, p, k) {
        LiveBelowEnd(L, base, end, p, k);
        assert false;
      } else {
        var j :| 0 <= j < |pages| && InSlab(pages[j], p, k);
        PageIs(m, pages, j);
        PageAligned(m, pages[j]);
        SlotPage(pages[j].addr, pages[j].cls, p);
        if i != j { PagesApart(m, pages, i, j); }
        assert InSlab(pages[i], p, k);
      }
    }
  }

  lemma NotOnPages(m: Mem, L: Blocks, pages: seq<Page>, p: int, n: nat)
    requires PagesOk(m, pages) && n <= |pages| && !exists k :: Owns(L, pages, p, k)
    ensures !exists i, k :: 0 <= i < n && InSlab(pages[i], p, k)
  {
    hide PagesOk, InSlab;
    hide Owns;
    if i, k :| 0 <= i < n && InSlab(pages[i], p, k) {
      InSlabLive(pages, i, p, k);
      OwnedBySlab(L, pages, p, k);
    }
  }

  /** The free count in the page header says whether a block is free. */
  lemma FreeCountIs(m: Mem, pages: seq<Page>, i: nat)
    requires PagesOk(m, pages) && i < |pages|
    ensures InMem(m, pages[i].addr) && InMem(m, pages[i].addr + 4) && pages[i].addr > 0 && pages[i].cls < CLASSES
    ensures FreeCountAt(m, pages[i].addr) == |pages[i].free| && Ld(m, pages[i].addr) == AddrAt(pages, LastOf(pages, i, pages[i].cls))
  {
    hide PagesOk;
    PageIs(m, pages, i);
    PageAligned(m, pages[i]);
    PageHeader(m, pages[i]);
    SlotsNonEmpty(pages[i].cls);
    FreeCountSmall(pages[i]);
    HalfWords(ClassSize(pages[i].cls), |pages[i].free|);
  }

  /** A block of the list starts inside the heap region, even an empty one. */
  lemma LiveBelowEnd(L: Blocks, base: int, end: int, p: int, n: int)
    requires Tiles(L, base, end) && LastOk(L) && ListLive(L, p, n)
    ensures base + HEADER <= p < end
  {
    hide Tiles;
    var k :| 0 <= k < |L| && IsLive(L[k], p, n);
    InTile(L, base, end, k);
    if k < |L| - 1 { Ordered(L, base, end, k, k + 1); InTile(L, base, end, k + 1); }
    TileEnds(L, base, end);
  }

  lemma InSlabLive(pages: seq<Page>, i: nat, p: int, n: int)
    requires i < |pages| && InSlab(pages[i], p, n)
    ensures SlabLive(pages, p, n)
  {
  }

  lemma OwnedBySlab(L: Blocks, pages: seq<Page>, p: int, n: int)
    requires SlabLive(pages, p, n)
    ensures Owns(L, pages, p, n)
  {
  }

  lemma OwnedByList(L: Blocks, pages: seq<Page>, k: nat)
    requires k < |L| && !L[k].free
    ensures Owns(L, pages, L[k].addr + HEADER, L[k].size)
  {
    assert IsLive(L[k], L[k].addr + HEADER, L[k].size);
  }

  /** The block of the list that p is. */
  lemma ListOwner(m: Mem, L: Blocks, pages: seq<Page>, base: int, end: int, p: int) returns (k: nat)
    requires PagesOk(m, pages) && Outside(pages, base, end)
    requires exists n :: Owns(L, pages, p, n)
    requires (exists n :: ListLive(L, p, n)) || base + HEADER <= p < end
    ensures k < |L| && !L[k].free && p == L[k].addr + HEADER && ListLive(L, p, L[k].size)
  {
    hide PagesOk, Outside, SlabLive, ListLive;
    var n := ListSize(m, L, pages, base, end, p);
    k := ListIndex(L, p, n);
  }

  lemma ListSize(m: Mem, L: Blocks, pages: seq<Page>, base: int, end: int, p: int) returns (n: int)
    requires PagesOk(m, pages) && Outside(pages, base, end)
    requires exists n :: Owns(L, pages, p, n)
    requires (exists n :: ListLive(L, p, n)) || base + HEADER <= p < end
    ensures ListLive(L, p, n)
  {
    hide PagesOk, Outside, SlabLive, ListLive;
    if k :| ListLive(L, p, k) {
      n := k;
    } else {
      n :| Owns(L, pages, p, n);
      SlabRange(m, pages, base, end, p, n);
      SlabSize(m, pages, p, n);
    }
  }

  lemma ListIndex(L: Blocks, p: int, n: int) returns (k: nat)
    requires ListLive(L, p, n)
    ensures k < |L| && IsLive(L[k], p, n)
  {
    k :| 0 <= k < |L| && IsLive(L[k], p, n);
  }

  lemma SizeInHeader(m: Mem, pages: seq<Page>, i: nat, p: int, n: int)
    requires PagesOk(m, pages) && i < |pages| && InSlab(pages[i], p, n)
    ensures InMem(m, PageOf(p) + 4) && Ld(m, PageOf(p) + 4) % 0x1_0000 == n
  {
    hide PagesOk, IsSlot;
    var pg := pages[i];
    PageIs(m, pages, i);
    PageAligned(m, pg);
    SlotPage(pg.addr, pg.cls, p);
    SlotsNonEmpty(pg.cls);
    FreeCountSmall(pg);
    HalfWords(ClassSize(pg.cls), |pg.free|);
  }

  lemma EndOfList(m: Mem, L: Blocks, base: int, end: int, i: nat)
    requires Tiles(L, base, end) && i <= |L| && AddrOf(L, i) == 0
    ensures i == |L|
  {
    if i < |L| { BlockAt(L, base, end, i); }
  }

  /** An owned block is made of whole words of memory. */
  lemma OwnedWords(m: Mem, L: Blocks, pages: seq<Page>, base: int, end: int, p: int, n: int)
    requires Tiles(L, base, end) && end <= 4 * |m| && PagesOk(m, pages) && Owns(L, pages, p, n)
    ensures p > 0 && p % 16 == 0 && n >= 0 && n % 4 == 0 && p + n <= 4 * |m|
  {
    hide Tiles, PagesOk, IsSlot;
    if ListLive(L, p, n) {
      var k :| 0 <= k < |L| && IsLive(L[k], p, n);
      InTile(L, base, end, k);
      BlockAt(L, base, end, k);
    } else {
      var i :| 0 <= i < |pages| && InSlab(pages[i], p, n);
      PageIs(m, pages, i);
      PageAligned(m, pages[i]);
      SlotInMem(m, pages[i], p);
    }
  }

  lemma WordInBlock(m: Mem, p: int, n: int, i: int)
    requires p > 0 && p % 16 == 0 && n % 4 == 0 && p + n <= 4 * |m| && 0 <= i < n && i % 4 == 0
    ensures InMem(m, p + i)
  {
    var u, v, w := p / 16, n / 4, i / 4;
    assert p == 16 * u && n == 4 * v && i == 4 * w && w + 1 <= v;
    Times4(4 * u + w);
    assert p + i == 4 * (4 * u + w);
  }

  /** A word of an owned block is in no header of the list. */
  lemma StoreLinked(m: Mem, L: Blocks, pages: seq<Page>, base: int, end: int, p: int, n: int, a: int, v: u32)
    requires Tiles(L, base, end) && Linked(m, L) && PagesOk(m, pages) && Outside(pages, base, end)
    requires Owns(L, pages, p, n) && p <= a < p + n && InMem(m, a)
    ensures Linked(St(m, a, v), L)
  {
    hide Tiles, PagesOk, Outside, Ld, St, WordAt, SlabLive;
    if ListLive(L, p, n) {
      var k :| 0 <= k < |L| && IsLive(L[k], p, n);
      NotHeader(L, base, end, a);
    } else {
      SlabRange(m, pages, base, end, p, n);
      NotHeader(L, base, end, a);
    }
    forall i | 0 <= i < |L| ensures HeaderOk(St(m, a, v), L, i) {
      assert HeaderOk(m, L, i);
      assert !(L[i].addr <= a < L[i].addr + HEADER);
      KeepHeader(m, St(m, a, v), {a}, L[i], NextAddr(L, i), PrevAddr(L, i));
    }
  }

  lemma StorePages(m: Mem, L: Blocks, pages: seq<Page>, base: int, end: int, p: int, n: int, a: int, v: u32)
    requires Tiles(L, base, end) && PagesOk(m, pages) && Outside(pages, base, end)
    requires Owns(L, pages, p, n) && p <= a < p + n && InMem(m, a)
    ensures PagesOk(St(m, a, v), pages)
  {
    hide Tiles, Outside, Ld, St, WordAt, PageOk, InLiveSlot;
    var m' := St(m, a, v);
    forall i | 0 <= i < |pages| ensures PageOk(m', pages[i]) && ChainOk(m', pages, i) {
      PageIs(m, pages, i);
      if pages[i].addr <= a < pages[i].addr + PAGE {
        StoreInPage(m, L, pages, base, end, p, n, a, i);
      }
      assert SamePage(m, m', pages[i]);
      PageFrame(m, m', pages[i]);
    }
  }

  lemma StoreInPage(m: Mem, L: Blocks, pages: seq<Page>, base: int, end: int, p: int, n: int, a: int, i: nat)
    requires Tiles(L, base, end) && PagesOk(m, pages) && Outside(pages, base, end) && i < |pages| && pages[i].cls < CLASSES
    requires Owns(L, pages, p, n) && p <= a < p + n && pages[i].addr <= a < pages[i].addr + PAGE
    ensures InLiveSlot(pages[i], a)
  {
    hide Tiles, PagesOk, Ld, PageOk, PageShape, IsSlot;
    if ListLive(L, p, n) {
      ListApart(L, base, end, p, n, p, n);
      assert false;
    } else {
      var j :| 0 <= j < |pages| && InSlab(pages[j], p, n);
      PageIs(m, pages, j);
      SlotInMem(m, pages[j], p);
      if i != j { PagesApart(m, pages, i, j); }
      LiveSlotHas(pages[i], p, a);
    }
  }
}
