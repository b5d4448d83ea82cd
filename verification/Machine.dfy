/** The kernel's memory as one machine (kernel/main.c:243-267): heap, slab pages and page tables over one physical
    memory and one frame allocator. No two of them share a byte, and no step of one changes a byte of another. */
module Machine {
  import opened Arith
  import opened Base
  import opened Pmm
  import opened HeapList
  import opened HeapLinks
  import opened SlabPages
  import opened HeapOwner
  import opened HeapSteps
  import opened Heap
  import opened Paging

  /** A frame that lies neither in the heap region nor on a slab page. */
  ghost predicate FrameApart(f: int, pages: seq<Page>, base: int, end: int) {
    && (f + PAGE_SIZE <= base || end <= f)
    && forall i :: 0 <= i < |pages| ==> pages[i].addr + PAGE <= f || f + PAGE_SIZE <= pages[i].addr
  }

  /** No page table lies in the heap region or on a slab page. */
  ghost predicate TablesApart(pd: Directory, pages: seq<Page>, base: int, end: int) {
    forall d :: 0 <= d < 1024 && IsTable(pd[d]) ==> FrameApart(Frame(pd[d]), pages, base, end)
  }

  /** A block handed out and a page table share no byte. */
  lemma OwnerAndTable(m: Mem, L: Blocks, pages: seq<Page>, base: int, end: int, pd: Directory, p: int, n: int, d: nat)
    requires Tiles(L, base, end) && PagesOk(m, pages) && TablesApart(pd, pages, base, end)
    requires Owns(L, pages, p, n) && d < 1024 && IsTable(pd[d])
    ensures p + n <= Frame(pd[d]) || Frame(pd[d]) + PAGE_SIZE <= p
  {
    hide Tiles, PagesOk, Present, Huge, Frame;
    assert FrameApart(Frame(pd[d]), pages, base, end);
    if ListLive(L, p, n) {
      ListApart(L, base, end, p, n, p, n);
    } else {
      var i := SlabHome(m, pages, p, n);
    }
  }

  /** The page of a slab block. */
  lemma SlabHome(m: Mem, pages: seq<Page>, p: int, n: int) returns (i: nat)
    requires PagesOk(m, pages) && SlabLive(pages, p, n)
    ensures i < |pages| && pages[i].addr <= p && p + n <= pages[i].addr + PAGE
  {
    hide PagesOk, IsSlot, ClassSize;
    i :| 0 <= i < |pages| && InSlab(pages[i], p, n);
    PageIs(m, pages, i);
    SlotInMem(m, pages[i], p);
  }

  /** A word of a block handed out is in no page table. */
  lemma OwnedNotTable(m: Mem, L: Blocks, pages: seq<Page>, base: int, end: int, pd: Directory, p: int, n: int, a: int)
    requires Tiles(L, base, end) && PagesOk(m, pages) && TablesApart(pd, pages, base, end)
    requires Owns(L, pages, p, n) && p <= a < p + n
    ensures !InTables(pd, a)
  {
    hide Tiles, PagesOk, Present, Huge, Frame, Owns, TablesApart;
    if InTables(pd, a) {
      var d :| 0 <= d < 1024 && InTable(pd[d], a);
      OwnerAndTable(m, L, pages, base, end, pd, p, n, d);
      assert false;
    }
  }

  // ---- a step of the heap

  lemma TableWordForeign(pd: Directory, m: Mem, bits: Bitmap, pages: seq<Page>, base: int, end: int, d: nat, t: nat)
    requires DirectoryOk(pd, m, bits) && TablesApart(pd, pages, base, end) && d < 1024 && t < 1024 && IsTable(pd[d])
    ensures EntryInMem(m, pd[d], t)
    ensures var a := Frame(pd[d]) + 4 * t; InUse(bits, a) && !(base <= a < end) && !InPages(pages, a)
  {
    hide Used, Present, Huge, Writable, User;
    TableWord(pd, m, bits, d, t);
    assert TableOk(pd[d], bits) && FrameApart(Frame(pd[d]), pages, base, end);
    assert (Frame(pd[d]) + 4 * t) / PAGE_SIZE == pd[d] / PAGE_SIZE by { assert Frame(pd[d]) == PAGE_SIZE * (pd[d] / PAGE_SIZE); }
  }

  /** A step of the heap leaves every table in place and every translation as it was. */
  lemma HeapStep(pd: Directory, m: Mem, bits: Bitmap, pages: seq<Page>, base: int, end: int, m': Mem, bits': Bitmap, pages': seq<Page>)
    requires DirectoryOk(pd, m, bits) && TablesApart(pd, pages, base, end) && ForeignKept(m, m', bits, pages, base, end)
    requires UsedKept(bits, bits') && SamePlaces(pages, pages') && FreshPages(|pages|, pages', bits) && PagesOk(m', pages')
    ensures DirectoryOk(pd, m', bits') && TablesApart(pd, pages', base, end)
    ensures forall v: u32 :: SameWalk(pd, m, m', v)
  {
    hide DirectoryOk, TablesApart, ForeignKept, UsedKept, PagesOk, SameWalk, FreshPages;
    DirectoryLater(pd, m, bits, m', bits', pages, base, end);
    NewPagesApart(pd, m, bits, pages, base, end, m', pages');
    forall v: u32 ensures SameWalk(pd, m, m', v) { WalkKept(pd, m, bits, pages, base, end, m', v); }
  }

  /** The hardware's walk gives the same in both memories. */
  predicate SameWalk(pd: Directory, m: Mem, m': Mem, v: u32) {
    && (IsTable(pd[Dir(v)]) ==> EntryInMem(m, pd[Dir(v)], Tab(v)) && EntryInMem(m', pd[Dir(v)], Tab(v)))
    && Translate(pd, m', v) == Translate(pd, m, v)
  }

  lemma DirectoryLater(pd: Directory, m: Mem, bits: Bitmap, m': Mem, bits': Bitmap, pages: seq<Page>, base: int, end: int)
    requires DirectoryOk(pd, m, bits) && UsedKept(bits, bits') && ForeignKept(m, m', bits, pages, base, end)
    ensures DirectoryOk(pd, m', bits')
  {
    hide Used, Present, Huge, Writable, User, Frame, Ld;
    forall d | 0 <= d < 1024 && IsTable(pd[d]) ensures TableOk(pd[d], bits') { assert TableOk(pd[d], bits); }
  }

  lemma NewPagesApart(pd: Directory, m: Mem, bits: Bitmap, pages: seq<Page>, base: int, end: int, m': Mem, pages': seq<Page>)
    requires DirectoryOk(pd, m, bits) && TablesApart(pd, pages, base, end)
    requires SamePlaces(pages, pages') && FreshPages(|pages|, pages', bits) && PagesOk(m', pages')
    ensures TablesApart(pd, pages', base, end)
  {
    hide Used, Present, Huge, Writable, User, PagesOk, PageOk;
    forall d, i | 0 <= d < 1024 && IsTable(pd[d]) && 0 <= i < |pages'|
      ensures pages'[i].addr + PAGE <= Frame(pd[d]) || Frame(pd[d]) + PAGE_SIZE <= pages'[i].addr
    {
      assert TableOk(pd[d], bits) && FrameApart(Frame(pd[d]), pages, base, end);
      if i >= |pages| {
        PageIs(m', pages', i);
        PageAligned(m', pages'[i]);
        FramesApart(pd[d], pages'[i].addr);
      }
    }
    forall d | 0 <= d < 1024 && IsTable(pd[d]) ensures FrameApart(Frame(pd[d]), pages', base, end) {
      assert FrameApart(Frame(pd[d]), pages, base, end);
    }
  }

  lemma WalkKept(pd: Directory, m: Mem, bits: Bitmap, pages: seq<Page>, base: int, end: int, m': Mem, v: u32)
    requires DirectoryOk(pd, m, bits) && TablesApart(pd, pages, base, end) && ForeignKept(m, m', bits, pages, base, end)
    ensures SameWalk(pd, m, m', v)
  {
    hide Ld, WordAt, Translate, DirectoryOk, TablesApart, InUse, InPages, Present, Huge, Frame;
    if IsTable(pd[Dir(v)]) { TableWordForeign(pd, m, bits, pages, base, end, Dir(v), Tab(v)); }
    SameTranslation(pd, m, pd, m', v);
  }

  // ---- a step of the page tables

  /** No word of the heap region or of a slab page differs. */
  ghost predicate HeapWordsKept(m: Mem, m': Mem, pages: seq<Page>, base: int, end: int) {
    && |m'| == |m|
    && forall a {:trigger Ld(m', a)} :: InMem(m, a) && (base <= a < end || InPages(pages, a)) ==> Ld(m', a) == Ld(m, a)
  }

  /** Every slab page and every frame of the heap region is in use. */
  ghost predicate FramesTaken(bits: Bitmap, pages: seq<Page>, base: int, end: int) {
    && (forall i :: 0 <= i < |pages| ==> InUse(bits, pages[i].addr))
    && (forall p :: 0 <= p < MAX_PAGES && p * PAGE_SIZE < end && base < (p + 1) * PAGE_SIZE ==> Used(bits, p))
  }

  /** A step that is confined to page tables keeps them apart from the heap and keeps every word of it. */
  lemma TableStep(m: Mem, pd: Directory, bits: Bitmap, m': Mem, pd': Directory, bits': Bitmap, pages: seq<Page>, base: int, end: int)
    requires Confined(m, pd, bits, m', pd', bits') && TablesApart(pd, pages, base, end) && DirectoryOk(pd', m', bits')
    requires FramesTaken(bits, pages, base, end) && PagesOk(m, pages)
    ensures TablesApart(pd', pages, base, end) && HeapWordsKept(m, m', pages, base, end) && FramesTaken(bits', pages, base, end)
  {
    hide Ld, WordAt, Used, Present, Huge, Frame, TableOk, PagesOk;
    forall d | 0 <= d < 1024 && IsTable(pd'[d]) ensures FrameApart(Frame(pd'[d]), pages, base, end) {
      assert TableKept(pd[d], pd'[d], bits);
      if pd'[d] == pd[d] {
        assert FrameApart(Frame(pd[d]), pages, base, end);
      } else {
        NewTableApart(m, bits, pages, base, end, pd', m', bits', d);
      }
    }
    forall a | InMem(m, a) && (base <= a < end || InPages(pages, a)) ensures InMem(m', a) && Ld(m', a) == Ld(m, a) {
      HeapWordNoTable(pd', pages, base, end, a);
    }
  }

  lemma NewTableApart(m: Mem, bits: Bitmap, pages: seq<Page>, base: int, end: int, pd: Directory, m': Mem, bits': Bitmap, d: nat)
    requires FramesTaken(bits, pages, base, end) && PagesOk(m, pages) && DirectoryOk(pd, m', bits')
    requires d < 1024 && IsTable(pd[d]) && !InUse(bits, Frame(pd[d]))
    ensures FrameApart(Frame(pd[d]), pages, base, end)
  {
    hide Used, Present, Huge, PagesOk;
    assert TableOk(pd[d], bits');
    assert Frame(pd[d]) % PAGE_SIZE == 0 && Frame(pd[d]) / PAGE_SIZE == pd[d] / PAGE_SIZE;
    FreshFrame(bits, Frame(pd[d]), pages, m, base, end);
  }

  lemma HeapWordNoTable(pd: Directory, pages: seq<Page>, base: int, end: int, a: int)
    requires TablesApart(pd, pages, base, end) && (base <= a < end || InPages(pages, a))
    ensures !InTables(pd, a)
  {
    hide Present, Huge, Frame;
    forall d | 0 <= d < 1024 && IsTable(pd[d]) ensures !(Frame(pd[d]) <= a < Frame(pd[d]) + PAGE_SIZE) {
      assert FrameApart(Frame(pd[d]), pages, base, end);
    }
  }

  /** Where the words of the heap are kept, so are its list, its pages and the bytes of every block handed out. */
  lemma HeapUnmoved(m: Mem, m': Mem, L: Blocks, pages: seq<Page>, base: int, end: int)
    requires HeapWordsKept(m, m', pages, base, end) && Tiles(L, base, end) && Linked(m, L) && PagesOk(m, pages)
    ensures Linked(m', L) && PagesOk(m', pages) && Kept(m, m', L, pages)
  {
    hide Tiles, PagesOk, Ld, WordAt, Owns, HeapWordsKept, Linked;
    ListUnmoved(m, m', L, pages, base, end);
    PagesUnmoved(m, m', pages, base, end);
    HeapWordsLength(m, m', pages, base, end);
    forall p, n, a | Owns(L, pages, p, n) && p <= a < p + n && InMem(m, a) ensures InMem(m', a) && Ld(m', a) == Ld(m, a) {
      OwnedWord(m, m', L, pages, base, end, p, n, a);
    }
  }

  lemma HeapWordsLength(m: Mem, m': Mem, pages: seq<Page>, base: int, end: int)
    requires HeapWordsKept(m, m', pages, base, end)
    ensures |m'| == |m|
  {
  }

  lemma OwnedWord(m: Mem, m': Mem, L: Blocks, pages: seq<Page>, base: int, end: int, p: int, n: int, a: int)
    requires HeapWordsKept(m, m', pages, base, end) && Tiles(L, base, end) && PagesOk(m, pages)
    requires Owns(L, pages, p, n) && p <= a < p + n && InMem(m, a)
    ensures InMem(m', a) && Ld(m', a) == Ld(m, a)
  {
    hide Tiles, PagesOk, Ld, WordAt, SlabLive;
    if ListLive(L, p, n) { ListApart(L, base, end, p, n, p, n); } else { var i := SlabHome(m, pages, p, n); }
  }

  lemma ListUnmoved(m: Mem, m': Mem, L: Blocks, pages: seq<Page>, base: int, end: int)
    requires HeapWordsKept(m, m', pages, base, end) && Tiles(L, base, end) && Linked(m, L)
    ensures Linked(m', L)
  {
    hide Tiles, Ld, WordAt, InPages;
    forall i | 0 <= i < |L| ensures HeaderOk(m', L, i) {
      assert HeaderOk(m, L, i);
      InTile(L, base, end, i);
      HeaderUnmoved(m, m', pages, base, end, L[i], NextAddr(L, i), PrevAddr(L, i));
    }
  }

  lemma HeaderUnmoved(m: Mem, m': Mem, pages: seq<Page>, base: int, end: int, b: Block, next: int, prev: int)
    requires HeapWordsKept(m, m', pages, base, end) && HeaderAt(m, b, next, prev) && base <= b.addr && b.addr + HEADER <= end
    ensures HeaderAt(m', b, next, prev)
  {
    hide InPages, Ld, Flag;
  }

  lemma PagesUnmoved(m: Mem, m': Mem, pages: seq<Page>, base: int, end: int)
    requires HeapWordsKept(m, m', pages, base, end) && PagesOk(m, pages)
    ensures PagesOk(m', pages)
  {
    hide Ld, WordAt, PageOk, InLiveSlot;
    forall i | 0 <= i < |pages| ensures PageOk(m', pages[i]) && ChainOk(m', pages, i) {
      PageIs(m, pages, i);
      assert SlabPages.SamePage(m, m', pages[i]);
      PageFrame(m, m', pages[i]);
    }
  }

  // ---- a store of a caller

  /** A caller that writes a word of its own block changes no translation. */
  lemma StoreStep(pd: Directory, m: Mem, bits: Bitmap, L: Blocks, pages: seq<Page>, base: int, end: int, p: int, n: int, a: int, v: u32)
    requires DirectoryOk(pd, m, bits) && Tiles(L, base, end) && PagesOk(m, pages) && TablesApart(pd, pages, base, end)
    requires Owns(L, pages, p, n) && p <= a < p + n && InMem(m, a)
    ensures DirectoryOk(pd, St(m, a, v), bits)
    ensures forall w: u32 :: SameWalk(pd, m, St(m, a, v), w)
  {
    hide Ld, St, WordAt, Translate, DirectoryOk, Tiles, PagesOk, TablesApart, Owns, Present, Huge, Frame;
    OwnedNotTable(m, L, pages, base, end, pd, p, n, a);
    SameDirectory(pd, m, St(m, a, v), bits);
    forall w: u32 ensures SameWalk(pd, m, St(m, a, v), w) {
      TableWords(pd, m, bits, w);
      if IsTable(pd[Dir(w)]) { assert InTable(pd[Dir(w)], Frame(pd[Dir(w)]) + 4 * Tab(w)); }
      SameTranslation(pd, m, pd, St(m, a, v), w);
    }
  }

  lemma SameDirectory(pd: Directory, m: Mem, m': Mem, bits: Bitmap)
    requires DirectoryOk(pd, m, bits) && |m'| == |m|
    ensures DirectoryOk(pd, m', bits)
  {
  }

  // ---- runs

  /** A block that the task of a run holds: its address and the size it asked for. */
  datatype Held = Held(p: u32, size: u32)

  datatype Call =
    | Malloc(size: u32)
    | Free(i: nat)
    | Write(i: nat, off: nat, x: u32)
    | Split(virt: u32)
    | MapOne(virt: u32, phys: u32, flags: u32)
    | UnmapOne(virt: u32)
    | MapFb(fb: u32, size: u32)

  /** Sizes whose rounding wraps are not asked for; words are aligned; flags lie below the address bits; the loop over a
      framebuffer ends. */
  predicate CallOk(c: Call) {
    match c
    case Malloc(size) => size + 15 < WORD
    case Write(_, off, _) => off % 4 == 0
    case MapOne(_, _, flags) => flags < 4096
    case MapFb(fb, size) => LoopEnds(fb, size)
    case _ => true
  }

  /** The call neither maps nor unmaps the page of v. */
  predicate Leaves(c: Call, v: u32) {
    match c
    case MapOne(virt, _, _) => v / 4096 != virt / 4096
    case UnmapOne(virt) => v / 4096 != virt / 4096
    case MapFb(fb, size) => !(fb + size < WORD && Framed(fb, fb + size, v))
    case _ => true
  }

  ghost predicate Holds(held: seq<Held>, p: int) {
    exists i :: 0 <= i < |held| && held[i].p == p
  }

  /** The blocks held are blocks handed out, each once, with the size asked for. */
  ghost predicate HeldOk(L: Blocks, pages: seq<Page>, held: seq<Held>) {
    && (forall i :: 0 <= i < |held| ==> HasRoom(L, pages, held[i]))
    && (forall i, j :: 0 <= i < j < |held| ==> held[i].p != held[j].p)
  }

  ghost predicate HasRoom(L: Blocks, pages: seq<Page>, h: Held) {
    exists n :: n >= h.size && Owns(L, pages, h.p, n)
  }

  /** Blocks that somebody else held are still handed out, and still not held here. */
  ghost predicate OthersOwned(L: Blocks, P: seq<Page>, held: seq<Held>, L': Blocks, P': seq<Page>, held': seq<Held>) {
    forall p, n :: Owns(L, P, p, n) && !Holds(held, p) ==> Owns(L', P', p, n) && !Holds(held', p)
  }

  /** Their bytes are as they were. */
  ghost predicate OthersBytes(m: Mem, m': Mem, L: Blocks, P: seq<Page>, held: seq<Held>) {
    && |m'| == |m|
    && forall p, n, a {:trigger Owns(L, P, p, n), Ld(m', a)} ::
         Owns(L, P, p, n) && !Holds(held, p) && p <= a < p + n && InMem(m, a) ==> Ld(m', a) == Ld(m, a)
  }

  lemma OthersTwice(m0: Mem, L0: Blocks, P0: seq<Page>, h0: seq<Held>, m1: Mem, L1: Blocks, P1: seq<Page>, h1: seq<Held>,
                    m2: Mem, L2: Blocks, P2: seq<Page>, h2: seq<Held>)
    requires OthersOwned(L0, P0, h0, L1, P1, h1) && OthersOwned(L1, P1, h1, L2, P2, h2)
    requires OthersBytes(m0, m1, L0, P0, h0) && OthersBytes(m1, m2, L1, P1, h1)
    ensures OthersOwned(L0, P0, h0, L2, P2, h2) && OthersBytes(m0, m2, L0, P0, h0)
  {
    hide Owns, Holds, Ld, WordAt;
    forall p, n, a | Owns(L0, P0, p, n) && !Holds(h0, p) && p <= a < p + n && InMem(m0, a) ensures Ld(m2, a) == Ld(m0, a) {
      assert Owns(L1, P1, p, n);
      assert Ld(m1, a) == Ld(m0, a);
    }
  }

  lemma OthersSame(m: Mem, m': Mem, L: Blocks, P: seq<Page>, held: seq<Held>)
    requires Kept(m, m', L, P)
    ensures OthersOwned(L, P, held, L, P, held) && OthersBytes(m, m', L, P, held)
  {
    hide Owns, Holds, Ld, WordAt;
  }

  /** One more block held. */
  lemma MallocHeld(L: Blocks, P: seq<Page>, L': Blocks, P': seq<Page>, held: seq<Held>, h: Held, n: int)
    requires HeldOk(L, P, held) && n >= h.size && forall k :: !Owns(L, P, h.p, k)
    requires forall q, k :: Owns(L', P', q, k) <==> Owns(L, P, q, k) || (q == h.p && k == n)
    ensures HeldOk(L', P', held + [h]) && OthersOwned(L, P, held, L', P', held + [h])
  {
    hide Owns;
    var held' := held + [h];
    forall i | 0 <= i < |held'| ensures HasRoom(L', P', held'[i]) {
      if i < |held| {
        var k :| k >= held[i].size && Owns(L, P, held[i].p, k);
        assert Owns(L', P', held[i].p, k);
      } else {
        assert Owns(L', P', h.p, n);
      }
    }
    forall i | 0 <= i < |held| ensures held[i].p != h.p { assert HasRoom(L, P, held[i]); }
  }

  /** The usable size of a block held. */
  lemma HeldIs(L: Blocks, P: seq<Page>, held: seq<Held>, i: nat) returns (n: int)
    requires HeldOk(L, P, held) && i < |held|
    ensures n >= held[i].size && Owns(L, P, held[i].p, n)
  {
    assert HasRoom(L, P, held[i]);
    n :| n >= held[i].size && Owns(L, P, held[i].p, n);
  }

  lemma MallocOthers(m: Mem, m': Mem, L: Blocks, P: seq<Page>, held: seq<Held>)
    requires Kept(m, m', L, P)
    ensures OthersBytes(m, m', L, P, held)
  {
    hide Owns, Holds, Ld, WordAt;
  }

  /** One block fewer held. */
  lemma FreeHeld(L: Blocks, P: seq<Page>, L': Blocks, P': seq<Page>, held: seq<Held>, i: nat)
    requires HeldOk(L, P, held) && i < |held|
    requires forall q, k :: Owns(L, P, q, k) && q != held[i].p ==> Owns(L', P', q, k)
    ensures var held' := held[..i] + held[i + 1..]; HeldOk(L', P', held') && OthersOwned(L, P, held, L', P', held')
  {
    hide Owns;
    var held' := held[..i] + held[i + 1..];
    forall j | 0 <= j < |held'| ensures HasRoom(L', P', held'[j]) {
      var o := if j < i then j else j + 1;
      assert held'[j] == held[o] && HasRoom(L, P, held[o]);
      var k :| k >= held[o].size && Owns(L, P, held[o].p, k);
      assert Owns(L', P', held[o].p, k);
    }
    forall p | Holds(held', p) || p == held[i].p ensures Holds(held, p) { HoldsFewer(held, i, p); }
  }

  lemma HoldsFewer(held: seq<Held>, i: nat, p: int)
    requires i < |held| && (Holds(held[..i] + held[i + 1..], p) || p == held[i].p)
    ensures Holds(held, p)
  {
    var held' := held[..i] + held[i + 1..];
    if p != held[i].p {
      var j :| 0 <= j < |held'| && held'[j].p == p;
      assert held'[j] == held[if j < i then j else j + 1];
    }
  }

  /** The same blocks handed out. */
  lemma HeldSame(L: Blocks, P: seq<Page>, L': Blocks, P': seq<Page>, held: seq<Held>)
    requires HeldOk(L, P, held) && forall q, k :: Owns(L', P', q, k) <==> Owns(L, P, q, k)
    ensures HeldOk(L', P', held) && OthersOwned(L, P, held, L', P', held)
  {
    hide Owns;
    forall i | 0 <= i < |held| ensures HasRoom(L', P', held[i]) {
      var n := HeldIs(L, P, held, i);
      assert Owns(L', P', held[i].p, n);
    }
  }

  lemma KeptOthers(m: Mem, m': Mem, L: Blocks, P: seq<Page>, L': Blocks, P': seq<Page>, held: seq<Held>, held': seq<Held>)
    requires Kept(m, m', L', P') && OthersOwned(L, P, held, L', P', held')
    ensures OthersBytes(m, m', L, P, held)
  {
    hide Owns, Holds, Ld, WordAt;
  }

  /** A store to a block held leaves the bytes of the others. */
  lemma WriteHeld(m: Mem, L: Blocks, P: seq<Page>, base: int, end: int, held: seq<Held>, i: nat, n: int, a: int, x: u32)
    requires Tiles(L, base, end) && PagesOk(m, P) && Outside(P, base, end) && i < |held|
    requires Owns(L, P, held[i].p, n) && held[i].p <= a < held[i].p + n && InMem(m, a)
    ensures OthersOwned(L, P, held, L, P, held) && OthersBytes(m, St(m, a, x), L, P, held)
  {
    hide Tiles, PagesOk, Outside, Owns, Ld, St, WordAt;
    forall p, k, b | Owns(L, P, p, k) && !Holds(held, p) && p <= b < p + k && InMem(m, b) ensures Ld(St(m, a, x), b) == Ld(m, b) {
      if a == b {
        OwnersApart(m, L, P, base, end, held[i].p, n, p, k);
        assert false;
      }
    }
  }

  class Kernel {
    const heap: KernelHeap
    const vmm: Vmm

    ghost predicate Valid()
      reads Parts()
    {
      && heap.ram == vmm.ram && heap.frames == vmm.frames
      && heap.Valid() && vmm.Valid() && vmm.KernelShape()
      && TablesApart(vmm.pageDirectory[..], heap.pages, heap.baseAddr, heap.endAddr)
    }

    ghost function Parts(): set<object> {
      {heap, heap.heads, heap.tracked, heap.ram, heap.frames, heap.frames.bitmap,
       vmm, vmm.ram, vmm.frames, vmm.frames.bitmap, vmm.pageDirectory}
    }

    /** The boot order of kernel/main.c: the static tables map memory, then the heap takes a region above the kernel
        and its frames are marked. */
    constructor (r: Ram, f: FrameAllocator, tables: seq<u32>, start: u32, size: u32)
      requires f.Valid() && 4 * |r.mem| >= MAX_PAGES * PAGE_SIZE && StaticTables(tables, f.Bits())
      requires forall t :: 0 <= t < 4 ==> tables[t] + PAGE_SIZE <= start
      requires start % PAGE_SIZE == 0 && size % PAGE_SIZE == 0 && 0 < start && 0 < size
      requires start + size < WORD && start + size <= 4 * |r.mem|
      modifies r, f, f.bitmap
      ensures Valid() && heap.ram == r && heap.frames == f && fresh(heap) && fresh(vmm)
      ensures heap.baseAddr == start && heap.endAddr == start + size && heap.pages == []
      ensures forall v: u32 :: vmm.Map(v) == Some(IdentityMapping(v))
    {
      hide Used, DirectoryOk, Translate, Tiles, Linked, PagesOk, TablesOk, Present, Huge, Frame, TablesApart;
      var w := new Vmm(r, f);
      w.Init(tables);
      ghost var m1, bits, pd: Directory := r.mem, f.Bits(), w.pageDirectory[..];
      RegionAligned(start, size);
      var h := new KernelHeap(r, f, start, size);
      ghost var m2 := r.mem;
      assert DirectoryOk(pd, m2, bits) by { SameDirectory(pd, m1, m2, bits); }
      h.ReserveFrames();
      NothingForeign(m1, bits, [], start, start + size);
      ForeignList(m1, m1, m2, bits, [], start, start + size);
      BootApart(pd, tables, start, start + size);
      BootPages(m2);
      assert UsedKept(bits, f.Bits());
      HeapStep(pd, m1, bits, [], start, start + size, m2, f.Bits(), []);
      heap, vmm := h, w;
      new;
      forall v: u32 ensures vmm.Map(v) == Some(IdentityMapping(v)) { assert SameWalk(pd, m1, m2, v); }
    }

    /** kmalloc on the machine: what the heap promises, and every page table, translation and foreign frame is as before. */
    method Kmalloc(size: u32) returns (p: u32, ghost n: int)
      requires Valid()
      modifies Parts()
      ensures Valid() && heap.baseAddr == old(heap.baseAddr) && heap.endAddr == old(heap.endAddr)
      ensures vmm.pageDirectory[..] == old(vmm.pageDirectory[..]) && forall v: u32 :: vmm.Map(v) == old(vmm.Map(v))
      ensures p == 0 && size != 0 ==> NoRoom(old(heap.blocks), old(heap.pages), old(heap.frames.Bits()), size)
      ensures p == 0 ==> forall q, k :: Owns(heap.blocks, heap.pages, q, k) <==> Owns(old(heap.blocks), old(heap.pages), q, k)
      ensures p != 0 ==> forall q, k :: Owns(heap.blocks, heap.pages, q, k) <==> Owns(old(heap.blocks), old(heap.pages), q, k) || (q == p && k == n)
      ensures p != 0 ==> size != 0 && (n >= size <==> size + 15 < WORD) && forall k :: !Owns(old(heap.blocks), old(heap.pages), p, k)
      ensures Kept(old(heap.ram.mem), heap.ram.mem, old(heap.blocks), old(heap.pages))
    {
      hide Used, DirectoryOk, Translate, Tiles, Linked, PagesOk, TablesOk, TablesApart, Owns, ForeignKept, Kept, Coalesced, LastOk, Outside, InUse;
      ghost var m, bits, P, pd: Directory := heap.ram.mem, heap.frames.Bits(), heap.pages, vmm.pageDirectory[..];
      p, n := heap.Kmalloc(size);
      HeapStep(pd, m, bits, P, heap.baseAddr, heap.endAddr, heap.ram.mem, heap.frames.Bits(), heap.pages);
      forall v: u32 ensures vmm.Map(v) == old(vmm.Map(v)) { assert SameWalk(pd, m, heap.ram.mem, v); }
    }

    /** kfree on the machine. */
    method Kfree(p: u32)
      requires Valid() && (p == 0 || exists n :: Owns(heap.blocks, heap.pages, p, n))
      modifies Parts()
      ensures Valid() && heap.baseAddr == old(heap.baseAddr) && heap.endAddr == old(heap.endAddr)
      ensures vmm.pageDirectory[..] == old(vmm.pageDirectory[..]) && forall v: u32 :: vmm.Map(v) == old(vmm.Map(v))
      ensures forall q, k :: Owns(heap.blocks, heap.pages, q, k) <==>
        Owns(old(heap.blocks), old(heap.pages), q, k) && !(q == p && p != 0 && old(heap.OnList(p) || heap.OnTrackedPage(p)))
      ensures Kept(old(heap.ram.mem), heap.ram.mem, heap.blocks, heap.pages)
    {
      hide Used, DirectoryOk, Translate, Tiles, Linked, PagesOk, TablesOk, TablesApart, Owns, ForeignKept, Kept, Coalesced, LastOk, Outside, InUse;
      ghost var m, bits, P, pd: Directory := heap.ram.mem, heap.frames.Bits(), heap.pages, vmm.pageDirectory[..];
      heap.Kfree(p);
      NoNewPages(P, heap.pages, bits);
      HeapStep(pd, m, bits, P, heap.baseAddr, heap.endAddr, heap.ram.mem, bits, heap.pages);
      forall v: u32 ensures vmm.Map(v) == old(vmm.Map(v)) { assert SameWalk(pd, m, heap.ram.mem, v); }
    }

    /** A caller writes a word of its own block: no translation changes, nor a byte of any other block. */
    method Store(a: int, x: u32, ghost p: int, ghost n: int)
      requires Valid() && Owns(heap.blocks, heap.pages, p, n) && p <= a < p + n && InMem(heap.ram.mem, a)
      modifies Parts()
      ensures Valid() && heap.baseAddr == old(heap.baseAddr) && heap.endAddr == old(heap.endAddr)
      ensures vmm.pageDirectory[..] == old(vmm.pageDirectory[..]) && forall v: u32 :: vmm.Map(v) == old(vmm.Map(v))
      ensures heap.blocks == old(heap.blocks) && heap.pages == old(heap.pages)
      ensures heap.ram.mem == St(old(heap.ram.mem), a, x)
    {
      hide Used, DirectoryOk, Translate, Tiles, Linked, PagesOk, TablesOk, TablesApart, Owns, Coalesced, LastOk, Outside, InUse, Ld, St, WordAt;
      ghost var m, bits, pd: Directory := heap.ram.mem, heap.frames.Bits(), vmm.pageDirectory[..];
      StoreStep(pd, m, bits, heap.blocks, heap.pages, heap.baseAddr, heap.endAddr, p, n, a, x);
      heap.Store(a, x, p, n);
      forall v: u32 ensures vmm.Map(v) == old(vmm.Map(v)) { assert SameWalk(pd, m, heap.ram.mem, v); }
    }

    /** vmm_split_4mb_page on the machine: no byte of the heap or of a block handed out changes. */
    method Split(virt: u32)
      requires Valid()
      modifies Parts()
      ensures Valid() && heap.baseAddr == old(heap.baseAddr) && heap.endAddr == old(heap.endAddr)
      ensures heap.blocks == old(heap.blocks) && heap.pages == old(heap.pages)
      ensures Kept(old(heap.ram.mem), heap.ram.mem, heap.blocks, heap.pages)
      ensures forall v: u32 ::
        vmm.Map(v) == if Dir(v) == Dir(virt) && vmm.pageDirectory[..] != old(vmm.pageDirectory[..]) then WithoutUser(old(vmm.Map(v)))
                      else old(vmm.Map(v))
      ensures old(Huge(vmm.pageDirectory[Dir(virt)])) && !IsTable(vmm.pageDirectory[Dir(virt)]) && old(Used(heap.frames.Bits(), 0)) ==>
        EveryUsed(heap.frames.Bits())
    {
      hide Used, DirectoryOk, Translate, Tiles, Linked, PagesOk, TablesOk, TablesApart, Owns, Kept, Coalesced, LastOk, Outside, InUse, Confined, HeapWordsKept, Present, Huge, Frame, User;
      ghost var m, bits, pd: Directory := heap.ram.mem, heap.frames.Bits(), vmm.pageDirectory[..];
      vmm.Split(virt);
      TableStep(m, pd, bits, heap.ram.mem, vmm.pageDirectory[..], heap.frames.Bits(), heap.pages, heap.baseAddr, heap.endAddr);
      HeapUnmoved(m, heap.ram.mem, heap.blocks, heap.pages, heap.baseAddr, heap.endAddr);
    }

    /** vmm_map_page on the machine. */
    method MapPage(virt: u32, phys: u32, flags: u32)
      requires Valid() && flags < 4096
      modifies Parts()
      ensures Valid() && heap.baseAddr == old(heap.baseAddr) && heap.endAddr == old(heap.endAddr)
      ensures heap.blocks == old(heap.blocks) && heap.pages == old(heap.pages)
      ensures Kept(old(heap.ram.mem), heap.ram.mem, heap.blocks, heap.pages)
      ensures forall v: u32 ::
        vmm.Map(v) == if v / 4096 == virt / 4096 && IsTable(vmm.pageDirectory[Dir(virt)]) then Some(PageMapping(phys, flags, v))
                      else old(vmm.Map(v))
      ensures IsTable(vmm.pageDirectory[Dir(virt)]) <==> old(IsTable(vmm.pageDirectory[Dir(virt)]))
    {
      hide Used, DirectoryOk, Translate, Tiles, Linked, PagesOk, TablesOk, TablesApart, Owns, Kept, Coalesced, LastOk, Outside, InUse, Confined, HeapWordsKept, Present, Huge, Frame, User;
      ghost var m, bits, pd: Directory := heap.ram.mem, heap.frames.Bits(), vmm.pageDirectory[..];
      vmm.MapPage(virt, phys, flags);
      TableStep(m, pd, bits, heap.ram.mem, vmm.pageDirectory[..], heap.frames.Bits(), heap.pages, heap.baseAddr, heap.endAddr);
      HeapUnmoved(m, heap.ram.mem, heap.blocks, heap.pages, heap.baseAddr, heap.endAddr);
    }

    /** vmm_unmap_page on the machine. */
    method UnmapPage(virt: u32)
      requires Valid() && !Huge(vmm.pageDirectory[Dir(virt)])
      modifies Parts()
      ensures Valid() && heap.baseAddr == old(heap.baseAddr) && heap.endAddr == old(heap.endAddr)
      ensures heap.blocks == old(heap.blocks) && heap.pages == old(heap.pages)
      ensures Kept(old(heap.ram.mem), heap.ram.mem, heap.blocks, heap.pages)
      ensures forall v: u32 :: vmm.Map(v) == if v / 4096 == virt / 4096 then None else old(vmm.Map(v))
    {
      hide Used, DirectoryOk, Translate, Tiles, Linked, PagesOk, TablesOk, TablesApart, Owns, Kept, Coalesced, LastOk, Outside, InUse, Confined, HeapWordsKept, Present, Huge, Frame, User;
      ghost var m, bits, pd: Directory := heap.ram.mem, heap.frames.Bits(), vmm.pageDirectory[..];
      vmm.UnmapPage(virt);
      TableStep(m, pd, bits, heap.ram.mem, vmm.pageDirectory[..], heap.frames.Bits(), heap.pages, heap.baseAddr, heap.endAddr);
      HeapUnmoved(m, heap.ram.mem, heap.blocks, heap.pages, heap.baseAddr, heap.endAddr);
    }

    /** vmm_map_framebuffer on the machine. */
    method MapFramebuffer(fb: u32, size: u32)
      requires Valid() && LoopEnds(fb, size)
      modifies Parts()
      ensures Valid() && heap.baseAddr == old(heap.baseAddr) && heap.endAddr == old(heap.endAddr)
      ensures heap.blocks == old(heap.blocks) && heap.pages == old(heap.pages)
      ensures Kept(old(heap.ram.mem), heap.ram.mem, heap.blocks, heap.pages)
      ensures forall v: u32 ::
        vmm.Map(v) == if fb + size < WORD && Framed(fb, fb + size, v) && !Huge(vmm.pageDirectory[Dir(v)]) then Some(Uncached(v))
                      else old(vmm.Map(v))
      ensures old(vmm.Enough(fb, size)) ==> forall v: u32 :: Framed(fb, fb + size, v) ==> !Huge(vmm.pageDirectory[Dir(v)])
      ensures fb + size <= TOP && old(Used(heap.frames.Bits(), 0)) && !EveryUsed(heap.frames.Bits()) ==>
        forall v: u32 :: Framed(fb, fb + size, v) ==> !Huge(vmm.pageDirectory[Dir(v)])
    {
      hide Used, DirectoryOk, Translate, Tiles, Linked, PagesOk, TablesOk, TablesApart, Owns, Kept, Coalesced, LastOk, Outside, InUse, Confined, HeapWordsKept, Present, Huge, Frame, User;
      ghost var m, bits, pd: Directory := heap.ram.mem, heap.frames.Bits(), vmm.pageDirectory[..];
      vmm.MapFramebuffer(fb, size);
      TableStep(m, pd, bits, heap.ram.mem, vmm.pageDirectory[..], heap.frames.Bits(), heap.pages, heap.baseAddr, heap.endAddr);
      HeapUnmoved(m, heap.ram.mem, heap.blocks, heap.pages, heap.baseAddr, heap.endAddr);
    }

    ghost predicate Holding(held: seq<Held>)
      reads heap
    {
      HeldOk(heap.blocks, heap.pages, held)
    }

    /** One call of a task that holds some blocks. */
    method Do(c: Call, held: seq<Held>) returns (held': seq<Held>)
      requires Valid() && CallOk(c) && Holding(held)
      modifies Parts()
      ensures Valid() && Holding(held') && heap.baseAddr == old(heap.baseAddr) && heap.endAddr == old(heap.endAddr)
      ensures OthersOwned(old(heap.blocks), old(heap.pages), held, heap.blocks, heap.pages, held')
      ensures OthersBytes(old(heap.ram.mem), heap.ram.mem, old(heap.blocks), old(heap.pages), held)
      ensures forall v: u32 :: Leaves(c, v) ==> WithoutUser(vmm.Map(v)) == WithoutUser(old(vmm.Map(v)))
    {
      hide Used, DirectoryOk, Translate, Tiles, Linked, PagesOk, TablesOk, TablesApart, Owns, Kept, Coalesced, LastOk, Outside, InUse,
        OthersOwned, OthersBytes, Present, Huge, Frame, HeldOk, Ld, St, WordAt;
      ghost var m, L, P := heap.ram.mem, heap.blocks, heap.pages;
      held' := held;
      OthersSame(m, m, L, P, held) by { NothingMoved(m, L, P); }
      match c
      case Malloc(size) =>
        var p; ghost var n;
        p, n := Kmalloc(size);
        if p != 0 {
          held' := held + [Held(p, size)];
          MallocHeld(L, P, heap.blocks, heap.pages, held, Held(p, size), n);
        } else {
          HeldSame(L, P, heap.blocks, heap.pages, held);
        }
        MallocOthers(m, heap.ram.mem, L, P, held);
      case Free(i) =>
        if i < |held| {
          ghost var n := HeldIs(L, P, held, i);
          Kfree(held[i].p);
          FreeHeld(L, P, heap.blocks, heap.pages, held, i);
          held' := held[..i] + held[i + 1..];
          KeptOthers(m, heap.ram.mem, L, P, heap.blocks, heap.pages, held, held');
        }
      case Write(i, off, x) =>
        if i < |held| && off + 4 <= held[i].size {
          ghost var n := HeldIs(L, P, held, i);
          OwnedWords(m, L, P, heap.baseAddr, heap.endAddr, held[i].p, n);
          WordInBlock(m, held[i].p, n, off);
          WriteHeld(m, L, P, heap.baseAddr, heap.endAddr, held, i, n, held[i].p + off, x);
          Store(held[i].p + off, x, held[i].p, n);
        }
      case Split(virt) =>
        Split(virt);
        OthersSame(m, heap.ram.mem, L, P, held);
      case MapOne(virt, phys, flags) =>
        MapPage(virt, phys, flags);
        OthersSame(m, heap.ram.mem, L, P, held);
      case UnmapOne(virt) =>
        if !Huge(vmm.pageDirectory[Dir(virt)]) {
          UnmapPage(virt);
          OthersSame(m, heap.ram.mem, L, P, held);
        }
      case MapFb(fb, size) =>
        MapFramebuffer(fb, size);
        OthersSame(m, heap.ram.mem, L, P, held);
    }

    /** Any run of calls, of the heap and of the page tables in any order: the tiers stay apart, no byte of a block that
        somebody else holds changes, and an address whose page no call maps or unmaps keeps its translation. */
    method Run(calls: seq<Call>, start: seq<Held>) returns (held: seq<Held>)
      requires Valid() && Holding(start) && forall i :: 0 <= i < |calls| ==> CallOk(calls[i])
      modifies Parts()
      ensures Valid() && Holding(held) && heap.baseAddr == old(heap.baseAddr) && heap.endAddr == old(heap.endAddr)
      ensures OthersOwned(old(heap.blocks), old(heap.pages), start, heap.blocks, heap.pages, held)
      ensures OthersBytes(old(heap.ram.mem), heap.ram.mem, old(heap.blocks), old(heap.pages), start)
      ensures forall v: u32 :: (forall i :: 0 <= i < |calls| ==> Leaves(calls[i], v)) ==>
        WithoutUser(vmm.Map(v)) == WithoutUser(old(vmm.Map(v)))
    {
      hide OthersOwned, OthersBytes, HeldOk, Leaves, CallOk;
      ghost var m0, L0, P0 := heap.ram.mem, heap.blocks, heap.pages;
      held := start;
      OthersSame(m0, m0, L0, P0, start) by { NothingMoved(m0, L0, P0); }
      for k := 0 to |calls|
        invariant Valid() && Holding(held) && heap.baseAddr == old(heap.baseAddr) && heap.endAddr == old(heap.endAddr)
        invariant OthersOwned(L0, P0, start, heap.blocks, heap.pages, held) && OthersBytes(m0, heap.ram.mem, L0, P0, start)
        invariant forall v: u32 :: (forall i :: 0 <= i < k ==> Leaves(calls[i], v)) ==>
          WithoutUser(vmm.Map(v)) == WithoutUser(old(vmm.Map(v)))
      {
        ghost var m, L, P, was := heap.ram.mem, heap.blocks, heap.pages, held;
        held := Do(calls[k], held);
        OthersTwice(m0, L0, P0, start, m, L, P, was, heap.ram.mem, heap.blocks, heap.pages, held);
      }
    }
  }

  lemma RegionAligned(start: int, size: int)
    requires start % PAGE_SIZE == 0 && size % PAGE_SIZE == 0 && 0 < start && 0 < size
    ensures start % 4 == 0 && size % 4 == 0 && size >= 48 && (start + 15) / 16 * 16 == start && (start + size) % PAGE_SIZE == 0
  {
    WholeFrames(start);
    WholeFrames(size);
    assert (start + size) % PAGE_SIZE == 0 by { AddFrames(start, size); }
  }

  lemma WholeFrames(x: int)
    requires x % PAGE_SIZE == 0 && 0 < x
    ensures x % 4 == 0 && x >= 48 && (x + 15) / 16 * 16 == x
  {
    var q := x / PAGE_SIZE;
    assert x == 16 * (256 * q) && x == 4 * (1024 * q);
    Times4(1024 * q);
    Div16(256 * q, 15);
  }

  lemma AddFrames(x: int, y: int)
    requires x % PAGE_SIZE == 0 && y % PAGE_SIZE == 0
    ensures (x + y) % PAGE_SIZE == 0
  {
    assert x + y == PAGE_SIZE * (x / PAGE_SIZE + y / PAGE_SIZE);
  }

  lemma BootApart(pd: Directory, tables: seq<u32>, base: int, end: int)
    requires |tables| == 4 && forall t :: 0 <= t < 4 ==> tables[t] + PAGE_SIZE <= base
    requires forall d :: 0 <= d < 1024 && IsTable(pd[d]) ==> d < 4 && Frame(pd[d]) == tables[d]
    ensures TablesApart(pd, [], base, end)
  {
    hide Present, Huge, Frame;
  }

  lemma BootPages(m: Mem)
    ensures PagesOk(m, [])
  {
  }

  lemma NoNewPages(a: seq<Page>, b: seq<Page>, bits: Bitmap)
    requires |b| == |a|
    ensures FreshPages(|a|, b, bits) && UsedKept(bits, bits)
  {
  }
}
