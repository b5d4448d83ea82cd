/** kernel/heap.c: kmalloc and kfree over a slab tier and a next-fit block list, all kept
    in the words of physical memory. The ghost fields are the list and the pages that the
    memory holds. */
module Heap {
  import opened Base
  import opened HeapList
  import opened HeapLinks
  import opened SlabPages
  import opened HeapOwner
  import opened Pmm
  import opened HeapSteps

  class KernelHeap {
    const frames: FrameAllocator
    const heads: array<u32>
    const tracked: array<u32>
    const ram: Ram
    var trackedCount: nat
    var heapStart: u32
    var nextFitHint: u32
    var totalSize: u32
    var baseAddr: u32
    var endAddr: u32
    ghost var blocks: Blocks
    ghost var hint: nat
    ghost var pages: seq<Page>

    /** The block list tiles the heap and the hint is one of its blocks. */
    ghost predicate ListShape()
      reads this, ram
    {
      && Tiles(blocks, baseAddr, endAddr) && Linked(ram.mem, blocks) && endAddr <= 4 * |ram.mem|
      && heapStart == baseAddr && totalSize == endAddr - baseAddr
      && hint < |blocks| && nextFitHint == blocks[hint].addr
    }

    ghost predicate ListValid()
      reads this, ram
    {
      ListShape() && Coalesced(blocks) && LastOk(blocks)
    }

    ghost predicate SlabShape()
      reads this, ram, heads, tracked
    {
      && heads.Length == CLASSES && tracked.Length == 128 && trackedCount <= 128
      && PagesOk(ram.mem, pages) && TablesOk(pages, heads[..], tracked[..trackedCount])
      && Outside(pages, baseAddr, endAddr)
    }

    /** Every slab page is a frame in use, and so is every frame of the heap region. */
    ghost predicate FramesOk()
      reads this, ram, frames, frames.bitmap
    {
      && frames.Valid() && 4 * |ram.mem| >= MAX_PAGES * PAGE_SIZE
      && (forall i :: 0 <= i < |pages| ==> InUse(frames.Bits(), pages[i].addr))
      && (forall p :: 0 <= p < MAX_PAGES && p * PAGE_SIZE < endAddr && baseAddr < (p + 1) * PAGE_SIZE ==> Used(frames.Bits(), p))
    }

    ghost predicate Valid()
      reads this, ram, heads, tracked, frames, frames.bitmap
    {
      ListValid() && SlabShape() && FramesOk()
    }

    /** heap_init: one free block spanning the region, its start rounded up to 16. */
    constructor (r: Ram, f: FrameAllocator, start: u32, size: u32)
      requires start % 4 == 0 && size % 4 == 0 && size >= 48 && 0 < start && start + size < WORD && start + size <= 4 * |r.mem|
      modifies r
      ensures ListValid() && SlabShape() && ram == r && frames == f && fresh(heads) && fresh(tracked)
      ensures baseAddr == (start + 15) / 16 * 16 && endAddr == start + size
      ensures blocks == [Block(baseAddr, endAddr - baseAddr - HEADER, true)] && pages == []
      ensures RangeOnly(old(r.mem), r.mem, baseAddr, endAddr)
    {
      hide Ld, St, WordAt, Tiles, Linked, Coalesced, BlockOk, SetFlag;
      var adjust := if start % 16 != 0 then 16 - start % 16 else 0;
      var a := start + adjust;
      var n := size - adjust;
      AlignUp(start, size);
      WordsInMem(r.mem, a);
      ram, frames := r, f;
      heads := new u32[CLASSES](_ => 0);
      tracked := new u32[128](_ => 0);
      trackedCount := 0;
      r.mem := St(r.mem, a, n - HEADER);
      r.mem := St(r.mem, a + 4, SetFlag(Ld(r.mem, a + 4), true));
      r.mem := St(r.mem, a + 8, 0);
      r.mem := St(r.mem, a + 12, 0);
      heapStart, nextFitHint, baseAddr := a, a, a;
      totalSize, endAddr := n, a + n;
      blocks, hint, pages := [Block(a, n - HEADER, true)], 0, [];
      OneBlock(r.mem, a, n);
    }

    /** The boot loop that marks the frames of the heap region in use. */
    method ReserveFrames()
      requires ListValid() && SlabShape() && pages == [] && baseAddr % PAGE_SIZE == 0 && endAddr % PAGE_SIZE == 0
      requires frames.Valid() && 4 * |ram.mem| >= MAX_PAGES * PAGE_SIZE
      modifies frames, frames.bitmap
      ensures Valid()
      ensures old(frames.Counted()) ==> frames.Counted()
      ensures forall p :: 0 <= p < MAX_PAGES ==>
        (Used(frames.Bits(), p) <==> Used(old(frames.Bits()), p) || baseAddr <= p * PAGE_SIZE < endAddr)
    {
      hide Used, SetPage, Tiles, Coalesced, Linked;
      var addr := baseAddr;
      ghost var b, e, at := baseAddr / PAGE_SIZE, endAddr / PAGE_SIZE, baseAddr / PAGE_SIZE;
      while addr < endAddr
        invariant addr == at * PAGE_SIZE && b <= at && (at <= e || at == b)
        invariant frames.Valid()
        invariant old(frames.Counted()) ==> frames.Counted()
        invariant forall p :: 0 <= p < MAX_PAGES ==>
          (Used(frames.Bits(), p) <==> Used(old(frames.Bits()), p) || b <= p < at)
      {
        ghost var bits := frames.Bits();
        var ok := frames.Reserve(addr);
        if ok { SetPageUsed(bits, at); }
        addr := addr + PAGE_SIZE;
        at := at + 1;
      }
    }

    /** The next-fit search: the first block that fits, from the hint on and then from the
        start. It finds none only when none fits. */
    method FindFit(size: u32) returns (curr: u32, ghost k: int)
      requires ListShape()
      ensures curr == 0 <==> forall i :: 0 <= i < |blocks| ==> !Fits(blocks[i], size)
      ensures curr == 0 <==> k == -1
      ensures k == NextFit(blocks, hint, size) && (k != -1 ==> curr == blocks[k].addr)
    {
      hide Tiles, Ld, WordAt;
      TileEnds(blocks, baseAddr, endAddr);
      HeaderWords(ram.mem, blocks, baseAddr, endAddr, hint);
      HeaderWords(ram.mem, blocks, baseAddr, endAddr, 0);
      if hint > 0 { Apart(blocks, baseAddr, endAddr, 0, hint); }
      var start := if nextFitHint != 0 then nextFitHint else heapStart;
      curr := start;
      var wrapped := false;
      ghost var i := hint;
      while curr != 0
        invariant 0 <= i <= |blocks| && curr == AddrOf(blocks, i)
        invariant !wrapped ==> hint <= i && forall j :: hint <= j < i ==> !Fits(blocks[j], size)
        invariant wrapped ==> i < hint && forall j :: 0 <= j < i || hint <= j < |blocks| ==> !Fits(blocks[j], size)
        invariant curr == 0 ==> forall j :: 0 <= j < |blocks| ==> !Fits(blocks[j], size)
        decreases if wrapped then 0 else 1, |blocks| - i
      {
        HeaderWords(ram.mem, blocks, baseAddr, endAddr, i);
        assert HeaderOk(ram.mem, blocks, i);
        if Flag(Ld(ram.mem, curr + 4)) && Ld(ram.mem, curr) >= size {
          return curr, i;
        }
        curr := Ld(ram.mem, curr + 8);
        i := i + 1;
        if i < |blocks| { HeaderWords(ram.mem, blocks, baseAddr, endAddr, i); }
        if curr == 0 && !wrapped && start != heapStart {
          curr := heapStart;
          wrapped := true;
          i := 0;
          if hint == 0 { assert false; }
        }
        if wrapped && curr == start {
          if i != hint { Apart(blocks, baseAddr, endAddr, i, hint); assert false; }
          break;
        }
        if wrapped && i == hint { assert false; }
      }
      return 0, -1;
    }

    /** The header of a new free block. */
    method PutHeader(n: u32, size: u32, next: u32, prev: u32)
      requires InMem(ram.mem, n) && InMem(ram.mem, n + 4) && InMem(ram.mem, n + 8) && InMem(ram.mem, n + 12)
      modifies ram`mem
      ensures |ram.mem| == |old(ram.mem)| && DiffersAt(old(ram.mem), ram.mem, {n as int, n + 4, n + 8, n + 12})
      ensures HeaderAt(ram.mem, Block(n, size, true), next, prev)
    {
      hide Ld, St, WordAt, Flag, SetFlag;
      ram.mem := St(ram.mem, n, size);
      ram.mem := St(ram.mem, n + 4, SetFlag(Ld(ram.mem, n + 4), true));
      ram.mem := St(ram.mem, n + 8, next);
      ram.mem := St(ram.mem, n + 12, prev);
    }

    /** Writes the header of the remainder and links it in behind block k. */
    method SplitBlock(curr: u32, size: u32, ghost k: nat)
      requires ListShape() && k < |blocks| && curr == blocks[k].addr
      requires Fits(blocks[k], size) && Splits(blocks[k], size) && size % 16 == 0
      modifies ram`mem
      ensures |ram.mem| == |old(ram.mem)|
      ensures var T := Take(blocks, k, size);
        Linked(ram.mem, T[k := T[k].(free := true)]) && OnlyHeaders(old(ram.mem), ram.mem, T)
    {
      hide Tiles, Ld, St, BlockOk, Take, WordAt, Flag, SetFlag, Linked, OnlyHeaders, HeaderAt, DiffersAt;
      SplitReady(ram.mem, blocks, baseAddr, endAddr, k, size);
      var n := curr + HEADER + size;
      PutHeader(n, Ld(ram.mem, curr) - size - HEADER, Ld(ram.mem, curr + 8), curr);
      ghost var m1 := ram.mem;
      SplitFirst(old(ram.mem), m1, blocks, baseAddr, endAddr, k, size);
      if Ld(ram.mem, curr + 8) != 0 {
        ram.mem := St(ram.mem, Ld(ram.mem, curr + 8) + 12, n);
      }
      ram.mem := St(ram.mem, curr, size);
      ram.mem := St(ram.mem, curr + 8, n);
      SplitStores(old(ram.mem), m1, ram.mem, blocks, baseAddr, endAddr, k, size);
      SplitLinked(old(ram.mem), ram.mem, blocks, baseAddr, endAddr, k, size);
    }

    /** The block-list half of kmalloc. `k` is the block that was taken. */
    method AllocFromList(size: u32) returns (p: u32, ghost k: int)
      requires ListValid() && size % 16 == 0
      modifies ram`mem, this`blocks, this`hint, this`nextFitHint
      ensures ListValid() && |ram.mem| == |old(ram.mem)|
      ensures p == 0 <==> k == -1
      ensures k == NextFit(old(blocks), old(hint), size) && ListStep(old(blocks), old(hint), size, blocks, hint, p)
      ensures k == -1 ==> ram.mem == old(ram.mem) && blocks == old(blocks) && forall i :: 0 <= i < |blocks| ==> !Fits(blocks[i], size)
      ensures k != -1 ==> p == old(blocks)[k].addr + HEADER && blocks == Take(old(blocks), k, size)
      ensures k != -1 ==> OnlyHeaders(old(ram.mem), ram.mem, blocks)
    {
      hide Tiles, Linked, Coalesced, St, Ld, WordAt, Take, BlockOk, OnlyHeaders, HeaderAt, Flag, SetFlag;
      var curr;
      curr, k := FindFit(size);
      if curr == 0 { return 0, -1; }
      ghost var L, m0 := blocks, ram.mem;
      ghost var T := Take(L, k, size);
      TakeKeeps(L, baseAddr, endAddr, k, size);
      ghost var F := T[k := T[k].(free := true)];
      HeaderReads(m0, L, baseAddr, endAddr, k);
      if Ld(ram.mem, curr) >= size + HEADER + 16 {
        SplitBlock(curr, size, k);
        SameTiles(T, F, baseAddr, endAddr, k);
      } else {
        assert F == L;
        NothingWritten(ram.mem, T);
      }
      ghost var m1 := ram.mem;
      HeaderReads(m1, F, baseAddr, endAddr, k);
      ram.mem := St(ram.mem, curr + 4, SetFlag(Ld(ram.mem, curr + 4), false));
      FlagTaken(m0, m1, ram.mem, T, F, baseAddr, endAddr, k);
      blocks := T;
      HeaderReads(ram.mem, T, baseAddr, endAddr, k);
      NextOrFirst(T, baseAddr, endAddr, k);
      nextFitHint := if Ld(ram.mem, curr + 8) != 0 then Ld(ram.mem, curr + 8) else heapStart;
      hint := if k + 1 < |T| then k + 1 else 0;
      return curr + HEADER, k;
    }

    /** One coalescing step of kfree: block k takes in the free block behind it. */
    method Absorb(block: u32, ghost k: nat)
      requires ListShape() && k + 1 < |blocks| && block == blocks[k].addr
      modifies ram`mem, this`blocks, this`hint, this`nextFitHint
      ensures ListShape() && |ram.mem| == |old(ram.mem)|
      ensures blocks == Join(old(blocks), k) && OnlyHeaders(old(ram.mem), ram.mem, old(blocks))
    {
      hide Tiles, Linked, St, Ld, WordAt, BlockOk, OnlyHeaders, Join, Flag;
      ghost var L := blocks;
      JoinReady(ram.mem, L, baseAddr, endAddr, k);
      HeaderReads(ram.mem, L, baseAddr, endAddr, k);
      JoinShape(L, k);
      JoinTiles(L, baseAddr, endAddr, k);
      var absorbed: int := Ld(ram.mem, block + 8);
      ram.mem := St(ram.mem, block, Ld(ram.mem, block) + HEADER + Ld(ram.mem, absorbed));
      ram.mem := St(ram.mem, block + 8, Ld(ram.mem, absorbed + 8));
      if Ld(ram.mem, absorbed + 8) != 0 {
        ram.mem := St(ram.mem, Ld(ram.mem, absorbed + 8) + 12, block);
      }
      JoinLinked(old(ram.mem), ram.mem, L, baseAddr, endAddr, k);
      if hint != k + 1 { Apart(L, baseAddr, endAddr, hint, k + 1); }
      if nextFitHint == absorbed { nextFitHint := block; }
      hint := if hint <= k then hint else hint - 1;
      blocks := Join(L, k);
    }

    /** The block-list half of kfree. */
    method FreeToList(p: u32, ghost k: nat)
      requires ListValid() && k < |blocks| && p == blocks[k].addr + HEADER
      modifies ram`mem, this`blocks, this`hint, this`nextFitHint
      ensures ListValid() && |ram.mem| == |old(ram.mem)|
      ensures blocks == Release(old(blocks), k) && OnlyHeaders(old(ram.mem), ram.mem, old(blocks))
    {
      hide Tiles, Linked, Coalesced, St, Ld, WordAt, BlockOk, OnlyHeaders, Join;
      var block := p - HEADER;
      ghost var L, m0 := blocks, ram.mem;
      HeaderWords(ram.mem, L, baseAddr, endAddr, k);
      ram.mem := St(ram.mem, block + 4, SetFlag(Ld(ram.mem, block + 4), true));
      FlagLinked(m0, ram.mem, L, baseAddr, endAddr, k, true);
      FreeTiles(L, baseAddr, endAddr, k);
      ghost var L0 := L[k := L[k].(free := true)];
      blocks := L0;
      ghost var m1 := ram.mem;
      SameHeaders(L0, L);
      LinkedAt(ram.mem, L0, k);
      if k + 1 < |L0| { HeaderWords(ram.mem, L0, baseAddr, endAddr, k + 1); LinkedAt(ram.mem, L0, k + 1); }
      if Ld(ram.mem, block + 8) != 0 && Flag(Ld(ram.mem, Ld(ram.mem, block + 8) + 4)) {
        Absorb(block, k);
        OnlyHeadersTwice(m0, m1, ram.mem, L, L0);
        JoinHeaders(L0, k);
        JoinShape(L0, k);
      }
      ghost var L1, m2 := blocks, ram.mem;
      assert L1 == JoinNext(L0, k);
      LinkedAt(ram.mem, L1, k);
      HeaderWords(ram.mem, L1, baseAddr, endAddr, k);
      if k > 0 { HeaderWords(ram.mem, L1, baseAddr, endAddr, k - 1); LinkedAt(ram.mem, L1, k - 1); }
      var prev: int := Ld(ram.mem, block + 12);
      if prev != 0 && Flag(Ld(ram.mem, prev + 4)) {
        Absorb(prev, k - 1);
        SubHeaders(L1, L0, L);
        OnlyHeadersTwice(m0, m2, ram.mem, L, L1);
      }
      ReleaseCoalesced(L, k);
      ReleaseLast(L, baseAddr, endAddr, k);
    }

    // ---- the slab tier

    /** is_slab_ptr */
    method IsSlabPtr(p: u32) returns (b: bool)
      requires SlabShape()
      ensures b <==> exists k :: 0 <= k < trackedCount && pages[k].addr == PageOf(p)
    {
      hide PagesOk, LastOf;
      var pageAddr := PageOf(p);
      for i := 0 to trackedCount
        invariant forall k :: 0 <= k < i ==> pages[k].addr != pageAddr
      {
        assert tracked[..trackedCount][i] == pages[i].addr;
        if tracked[i] == pageAddr { return true; }
      }
      return false;
    }

    /** The carving loop of slab_new_page: every block pushed on the free list in turn. */
    method Carve(page: u32, cls: nat) returns (ghost free: seq<int>)
      requires cls < CLASSES && PageOk(ram.mem, Page(page, cls, []))
      modifies ram`mem
      ensures |ram.mem| == |old(ram.mem)| && InMem(ram.mem, page)
      ensures RangeOnly(old(ram.mem), ram.mem, page, page + PAGE) && Ld(ram.mem, page) == Ld(old(ram.mem), page)
      ensures PageOk(ram.mem, Page(page, cls, free)) && forall a :: IsSlot(page, cls, a) ==> a in free
      ensures free != []
    {
      hide St, Ld, WordAt, ClassSize, IsSlot, PageShape, LinkOk, Slots;
      var size := ClassSize(cls);
      SlotsNonEmpty(cls);
      var dataStart := (page + 12 + size - 1) / size * size;
      PageAligned(ram.mem, Page(page, cls, []));
      PageHeader(ram.mem, Page(page, cls, []));
      FirstSlot(page, cls);
      var offset := dataStart;
      free := [];
      ghost var m0 := ram.mem;
      while offset + size <= page + PAGE
        invariant page + size <= offset && (offset - page) % size == 0
        invariant |ram.mem| == |m0| && RangeOnly(m0, ram.mem, page, page + PAGE)
        invariant InMem(ram.mem, page) && Ld(ram.mem, page) == Ld(m0, page)
        invariant PageOk(ram.mem, Page(page, cls, free))
        invariant forall a :: a in free ==> a < offset
        invariant forall a :: IsSlot(page, cls, a) && a < offset ==> a in free
        invariant offset > page + size ==> free != []
        decreases page + PAGE - offset
      {
        ghost var p := Page(page, cls, free);
        ghost var m1 := ram.mem;
        NewSlot(m1, p, offset);
        PageHeader(m1, p);
        ram.mem := St(ram.mem, offset, Ld(ram.mem, page + 8));
        ram.mem := St(ram.mem, page + 8, offset);
        ram.mem := St(ram.mem, page + 4, IncCount(Ld(ram.mem, page + 4)));
        CountUp(cls, |free|);
        KeepShape(m1, ram.mem, p);
        PushOk(m1, ram.mem, p, offset);
        free := [offset] + free;
        NextSlot(page, cls, offset);
        offset := offset + size;
      }
      LastSlot(page, cls, offset);
    }

    /** slab_new_page after it has its frame: the page is tracked while there is room, given a
        header, carved, and put at the head of its class. */
    method InstallPage(page: u32, cls: nat)
      requires ListValid() && SlabShape() && cls < CLASSES
      requires page > 0 && page % PAGE == 0 && page + PAGE <= 4 * |ram.mem| && page + PAGE <= WORD
      requires page + PAGE <= baseAddr || endAddr <= page
      requires forall i :: 0 <= i < |pages| ==>
        pages[i].addr != page && (pages[i].addr + PAGE <= page || page + PAGE <= pages[i].addr)
      modifies ram`mem, this`pages, this`trackedCount, heads, tracked
      ensures ListValid() && SlabShape() && |ram.mem| == |old(ram.mem)|
      ensures |pages| == |old(pages)| + 1 && pages[..|old(pages)|] == old(pages)
      ensures var q := pages[|old(pages)|];
        q.addr == page && q.cls == cls && q.free != [] && forall a :: IsSlot(page, cls, a) ==> a in q.free
      ensures Kept(old(ram.mem), ram.mem, old(blocks), old(pages)) && trackedCount >= old(trackedCount)
      ensures RangeOnly(old(ram.mem), ram.mem, page, page + PAGE)
    {
      hide Tiles, Linked, Coalesced, PagesOk, St, Ld, WordAt, ClassSize, IsSlot, LastOf, LinkOk, Kept, Outside, Slots, PageShape, TablesOk, PageOk, RangeOnly;
      ghost var m0, P0 := ram.mem, pages;
      HeadIs(P0, heads[..], tracked[..trackedCount], cls);
      if trackedCount < 128 {
        tracked[trackedCount] := page;
        trackedCount := trackedCount + 1;
      }
      FrameWords(ram.mem, page);
      SizeFits(cls);
      ram.mem := St(ram.mem, page, heads[cls]);
      ram.mem := St(ram.mem, page + 4, ClassSize(cls));
      ram.mem := St(ram.mem, page + 8, 0);
      ghost var m1 := ram.mem;
      NewHeader(m0, page, cls, heads[cls]);
      ghost var free := Carve(page, cls);
      RangeTwice(m0, m1, ram.mem, page, page + PAGE);
      heads[cls] := page;
      ghost var q := Page(page, cls, free);
      pages := P0 + [q];
      PagesGrow(m0, ram.mem, P0, q);
      TablesGrow(P0, q, old(heads[..]), heads[..], old(tracked[..trackedCount]), tracked[..trackedCount]);
      RangeKeeps(m0, ram.mem, page, page + PAGE, blocks, P0, baseAddr, endAddr);
      ListFrame(m0, ram.mem, page, page + PAGE, blocks, baseAddr, endAddr);
      OutsideGrow(P0, q, baseAddr, endAddr);
    }

    /** slab_new_page */
    method SlabNewPage(cls: nat) returns (page: u32)
      requires Valid() && cls < CLASSES
      modifies ram`mem, this`pages, this`trackedCount, heads, tracked
      modifies frames`usedPages, frames`lastAllocHint, frames.bitmap
      ensures Valid() && |ram.mem| == |old(ram.mem)|
      ensures page == 0 ==> pages == old(pages) && ram.mem == old(ram.mem)
      ensures page != 0 ==> |pages| == |old(pages)| + 1 && pages[..|old(pages)|] == old(pages)
      ensures page != 0 ==> var q := pages[|old(pages)|];
        q.addr == page && q.cls == cls && q.free != [] && forall a :: IsSlot(page, cls, a) ==> a in q.free
      ensures Kept(old(ram.mem), ram.mem, old(blocks), old(pages)) && trackedCount >= old(trackedCount)
      ensures ForeignKept(old(ram.mem), ram.mem, old(frames.Bits()), old(pages), baseAddr, endAddr)
      ensures page != 0 ==> page % PAGE == 0 && !InUse(old(frames.Bits()), page)
      ensures UsedKept(old(frames.Bits()), frames.Bits())
      ensures page == 0 ==> old(Used(frames.Bits(), 0)) ==> NoFrameLeft(old(frames.Bits()))
      ensures old(frames.Counted()) ==> frames.Counted()
    {
      hide Tiles, Linked, Coalesced, PagesOk, ClassSize, IsSlot, SetPage, Used, Kept, Outside, TablesOk, RangeOnly, ForeignKept;
      NothingForeign(ram.mem, frames.Bits(), pages, baseAddr, endAddr);
      ghost var bits, P0 := frames.Bits(), pages;
      NothingMoved(ram.mem, blocks, P0);
      page := frames.Alloc();
      FramesGrow(bits, frames.Bits(), page);
      if page == 0 { return 0; }
      FreshFrame(bits, page, P0, ram.mem, baseAddr, endAddr);
      ghost var m0 := ram.mem;
      InstallPage(page, cls);
      ForeignStep(m0, m0, ram.mem, bits, page, P0, baseAddr, endAddr);
    }

    /** Pops the first free block of page i. */
    method PopBlock(page: u32, ghost i: nat) returns (p: u32)
      requires Valid() && i < |pages| && page == pages[i].addr && pages[i].free != []
      modifies ram`mem, this`pages
      ensures Valid() && |ram.mem| == |old(ram.mem)| && p != 0
      ensures p == old(pages)[i].free[0] && pages == Popped(old(pages), i)
      ensures !SlabLive(old(pages), p, ClassSize(old(pages)[i].cls))
      ensures forall q, n :: SlabLive(pages, q, n) <==>
        SlabLive(old(pages), q, n) || (q == p && n == ClassSize(old(pages)[i].cls))
      ensures forall n :: !SlabLive(old(pages), p, n)
      ensures Kept(old(ram.mem), ram.mem, blocks, old(pages)) && SamePlaces(old(pages), pages) && |pages| == |old(pages)|
      ensures RangeOnly(old(ram.mem), ram.mem, page, page + PAGE)
    {
      hide Tiles, Linked, Coalesced, PagesOk, St, Ld, WordAt, ClassSize, IsSlot, LastOf, LinkOk, Kept, Outside, Slots, PageShape, TablesOk, PageOk,
        RangeOnly, SlabLive, Used, InLiveSlot, DecCount;
      ghost var m0, P0, pg := ram.mem, pages, pages[i];
      PageIs(ram.mem, pages, i);
      PageHeader(ram.mem, pg);
      PageAligned(ram.mem, pg);
      FirstFree(ram.mem, pg);
      p := Ld(ram.mem, page + 8);
      ram.mem := St(ram.mem, page + 8, Ld(ram.mem, p));
      ram.mem := St(ram.mem, page + 4, DecCount(Ld(ram.mem, page + 4)));
      CountDown(pg.cls, |pg.free|);
      KeepShape(m0, ram.mem, pg);
      ghost var q := pg.(free := pg.free[1..]);
      PopOk(m0, ram.mem, pg);
      HeaderNotLive(m0, pg, page + 4);
      HeaderNotLive(m0, pg, page + 8);
      PageKeeps(m0, ram.mem, HeaderCells(pg), blocks, P0, baseAddr, endAddr, i);
      ReplacePage(m0, ram.mem, HeaderCells(pg), blocks, P0, i, q, heads[..], tracked[..trackedCount], baseAddr, endAddr);
      pages := P0[i := q];
      forall a, n ensures SlabLive(pages, a, n) <==> SlabLive(P0, a, n) || (a == p && n == ClassSize(pg.cls)) {
        PopLive(m0, P0, i, a, n);
      }
      forall n ensures !SlabLive(P0, p, n) { PopLive(m0, P0, i, p, n); }
    }

    /** The search of slab_alloc: the newest page of the class with a free block, 0 when none has one. */
    method FindPage(cls: nat) returns (page: u32, ghost i: int)
      requires SlabShape() && cls < CLASSES
      ensures page == 0 <==> forall j :: 0 <= j < |pages| && pages[j].cls == cls ==> pages[j].free == []
      ensures page != 0 ==> 0 <= i < |pages| && page == pages[i].addr && pages[i].cls == cls && pages[i].free != []
      ensures page != 0 ==> forall j :: i < j < |pages| && pages[j].cls == cls ==> pages[j].free == []
    {
      hide PagesOk, TablesOk, Ld, WordAt, ClassSize, LastOf, Outside, FreeCountAt;
      HeadIs(pages, heads[..], tracked[..trackedCount], cls);
      page := heads[cls];
      i := LastOf(pages, |pages|, cls);
      NonZeroPages(ram.mem, pages);
      if i >= 0 { FreeCountIs(ram.mem, pages, i); }
      while page != 0 && FreeCountAt(ram.mem, page) == 0
        invariant -1 <= i < |pages| && page == AddrAt(pages, i) && (i >= 0 ==> pages[i].cls == cls)
        invariant forall j :: i < j < |pages| && pages[j].cls == cls ==> pages[j].free == []
        invariant i >= 0 ==> InMem(ram.mem, pages[i].addr) && InMem(ram.mem, pages[i].addr + 4) && FreeCountAt(ram.mem, pages[i].addr) == |pages[i].free|
        decreases i
      {
        FreeCountIs(ram.mem, pages, i);
        page := Ld(ram.mem, page);
        i := LastOf(pages, i, cls);
        if i >= 0 { FreeCountIs(ram.mem, pages, i); }
      }
    }

    /** slab_alloc: the newest page of the class with a free block, or a new page. */
    method SlabAlloc(cls: nat) returns (p: u32)
      requires Valid() && cls < CLASSES
      modifies ram`mem, this`pages, this`trackedCount, heads, tracked
      modifies frames`usedPages, frames`lastAllocHint, frames.bitmap
      ensures Valid() && |ram.mem| == |old(ram.mem)|
      ensures old(frames.Counted()) ==> frames.Counted()
      ensures SlabStep(old(pages), old(frames.Bits()), cls, pages, p)
      ensures p == 0 ==> forall q, n :: SlabLive(pages, q, n) <==> SlabLive(old(pages), q, n)
      ensures p != 0 ==> forall q, n :: SlabLive(pages, q, n) <==>
        SlabLive(old(pages), q, n) || (q == p && n == ClassSize(cls))
      ensures p != 0 ==> forall n :: !SlabLive(old(pages), p, n)
      ensures Kept(old(ram.mem), ram.mem, blocks, old(pages))
      ensures SamePlaces(old(pages), pages) && trackedCount >= old(trackedCount)
      ensures FreshPages(|old(pages)|, pages, old(frames.Bits())) && UsedKept(old(frames.Bits()), frames.Bits())
      ensures ForeignKept(old(ram.mem), ram.mem, old(frames.Bits()), old(pages), baseAddr, endAddr)
    {
      hide Tiles, Linked, Coalesced, PagesOk, St, Ld, WordAt, ClassSize, IsSlot, LinkOk, Kept, Outside, Slots, PageShape, TablesOk, PageOk,
        RangeOnly, SlabLive, Used, InLiveSlot, InUse, ForeignKept, SlabStep, FirstOfPage, NoFrameLeft;
      ghost var bits := frames.Bits();
      ghost var m0, P0 := ram.mem, pages;
      NothingForeign(ram.mem, bits, pages, baseAddr, endAddr);
      var page; ghost var i;
      page, i := FindPage(cls);
      if page == 0 {
        page := SlabNewPage(cls);
        if page == 0 {
          StepFailed(P0, bits, cls);
          return 0;
        }
        i := |P0|;
        assert pages == P0 + [pages[i]];
        PageIs(ram.mem, pages, i);
        FirstOfNew(ram.mem, pages[i], bits);
        forall q, n ensures SlabLive(pages, q, n) <==> SlabLive(P0, q, n) {
          NewPageLive(P0, pages[i], q, n);
        }
      } else {
        NothingMoved(ram.mem, blocks, pages);
        PageIs(ram.mem, pages, i);
        PageAligned(ram.mem, pages[i]);
        assert P0[i].addr == page;
      }
      ghost var m1, P1 := ram.mem, pages;
      p := PopBlock(page, i);
      if i < |P0| { StepFound(P0, bits, cls, i, p); } else { StepMade(P0, bits, cls, pages, p); }
      ForeignStep(m0, m1, ram.mem, bits, page, P0, baseAddr, endAddr);
      KeptTwice(m0, m1, ram.mem, blocks, P0, P1);
    }

    /** slab_free: the block goes back to the free list of its page. */
    method SlabFree(p: u32, ghost i: nat, ghost n: int)
      requires Valid() && i < |pages| && InSlab(pages[i], p, n)
      modifies ram`mem, this`pages
      ensures Valid() && |ram.mem| == |old(ram.mem)|
      ensures forall q, k :: SlabLive(pages, q, k) <==> SlabLive(old(pages), q, k) && q != p
      ensures Kept(old(ram.mem), ram.mem, blocks, pages) && SamePlaces(old(pages), pages) && |pages| == |old(pages)|
      ensures RangeOnly(old(ram.mem), ram.mem, old(pages)[i].addr, old(pages)[i].addr + PAGE) && old(pages)[i].addr % PAGE == 0
    {
      hide Tiles, Linked, Coalesced, PagesOk, St, Ld, WordAt, ClassSize, IsSlot, LastOf, LinkOk, Kept, Outside, Slots, PageShape, TablesOk, PageOk,
        RangeOnly, SlabLive, Used, InLiveSlot, IncCount;
      ghost var m0, P0, pg := ram.mem, pages, pages[i];
      PageIs(ram.mem, pages, i);
      PageHeader(ram.mem, pg);
      PageAligned(ram.mem, pg);
      SlotInMem(ram.mem, pg, p);
      SlotPage(pg.addr, pg.cls, p);
      FreeCountSmall(pg);
      var page: int := PageOf(p);
      ram.mem := St(ram.mem, p, Ld(ram.mem, page + 8));
      ram.mem := St(ram.mem, page + 8, p);
      ram.mem := St(ram.mem, page + 4, IncCount(Ld(ram.mem, page + 4)));
      CountUp(pg.cls, |pg.free|);
      KeepShape(m0, ram.mem, pg);
      ghost var q := pg.(free := [p] + pg.free);
      ghost var cells := HeaderCells(pg) + {p as int};
      PushOk(m0, ram.mem, pg, p);
      PageHeader(ram.mem, q);
      ReplacePage(m0, ram.mem, cells, blocks, P0, i, q, heads[..], tracked[..trackedCount], baseAddr, endAddr);
      pages := P0[i := q];
      PushKeeps(m0, ram.mem, cells, blocks, P0, pages, i, p, baseAddr, endAddr);
      forall a, k ensures SlabLive(pages, a, k) <==> SlabLive(P0, a, k) && a != p {
        PushLive(m0, P0, i, p, a, k);
      }
    }

    // ---- the allocator

    /** slab_class_for_size, for the sizes it is called with. */
    method SlabClassForSize(size: u32) returns (c: nat)
      requires size <= MAX_SLAB
      ensures c == ClassFor(size)
    {
      c := 0;
      while c < CLASSES - 1
        invariant 0 <= c < CLASSES && (c > 0 ==> ClassSize(c - 1) < size)
      {
        if size <= ClassSize(c) { return c; }
        c := c + 1;
      }
    }

    /** kmalloc. `n` is the usable size of the block. It reaches the size asked for exactly when
        rounding up does not wrap around. No byte of a block handed out earlier changes. */
    method Kmalloc(size: u32) returns (p: u32, n: int)
      requires Valid()
      modifies ram`mem, this`pages, this`trackedCount, heads, tracked, this`blocks, this`hint, this`nextFitHint
      modifies frames`usedPages, frames`lastAllocHint, frames.bitmap
      ensures Valid() && |ram.mem| == |old(ram.mem)|
      ensures old(frames.Counted()) ==> frames.Counted()
      ensures p == 0 ==> forall q, k :: Owns(blocks, pages, q, k) <==> Owns(old(blocks), old(pages), q, k)
      ensures size == 0 ==> p == 0 && pages == old(pages) && blocks == old(blocks) && hint == old(hint)
      ensures size != 0 && RoundUp(size) <= MAX_SLAB && pages != old(pages) ==>
        SlabStep(old(pages), old(frames.Bits()), ClassFor(RoundUp(size)), pages, p) && n == ClassSize(ClassFor(RoundUp(size)))
        && blocks == old(blocks) && hint == old(hint)
      ensures size != 0 && RoundUp(size) <= MAX_SLAB && pages == old(pages) ==>
        SlabStep(old(pages), old(frames.Bits()), ClassFor(RoundUp(size)), pages, 0)
      ensures size != 0 && (RoundUp(size) <= MAX_SLAB ==> pages == old(pages)) ==>
        pages == old(pages) && ListStep(old(blocks), old(hint), RoundUp(size), blocks, hint, p)
      ensures size != 0 && RoundUp(size) <= MAX_SLAB && old(SlabCan(pages, frames.Bits(), ClassFor(RoundUp(size)))) ==>
        p != 0 && n == ClassSize(ClassFor(RoundUp(size))) && SlabLive(pages, p, n)
      ensures p == 0 && size != 0 ==> NoRoom(old(blocks), old(pages), old(frames.Bits()), size)
      ensures p != 0 ==> forall q, k :: Owns(blocks, pages, q, k) <==>
        Owns(old(blocks), old(pages), q, k) || (q == p && k == n)
      ensures p != 0 ==> forall k :: !Owns(old(blocks), old(pages), p, k)
      ensures p != 0 ==> size != 0 && (n >= size <==> size + 15 < WORD)
      ensures Kept(old(ram.mem), ram.mem, old(blocks), old(pages))
      ensures SamePlaces(old(pages), pages) && trackedCount >= old(trackedCount)
      ensures FreshPages(|old(pages)|, pages, old(frames.Bits())) && UsedKept(old(frames.Bits()), frames.Bits())
      ensures forall q, k :: ListLive(old(blocks), q, k) ==> ListLive(blocks, q, k)
      ensures ForeignKept(old(ram.mem), ram.mem, old(frames.Bits()), old(pages), baseAddr, endAddr)
    {
      hide Tiles, Linked, Coalesced, PagesOk, St, Ld, WordAt, ClassSize, IsSlot, LastOf, LinkOk, Kept, Outside, TablesOk, Take,
        SlabLive, ListLive, Used, InUse, LastOk, OnlyHeaders, Fits, ForeignKept, SlabStep, ListStep, SlabCan, NextFit;
      ghost var m0, L0, P0, bits := ram.mem, blocks, pages, frames.Bits();
      NothingMoved(m0, L0, P0);
      NothingForeign(m0, bits, P0, baseAddr, endAddr);
      if size == 0 { return 0, 0; }
      var need: u32 := RoundUp(size);
      RoundUpIs(size);
      if need <= MAX_SLAB {
        var cls := SlabClassForSize(need);
        p := SlabAlloc(cls);
        StepChanges(P0, bits, cls, pages, p);
        if SlabCan(P0, bits, cls) { SlabServes(P0, bits, cls, pages, p); }
        if p != 0 {
          forall k ensures !ListLive(L0, p, k) {
            NotInList(ram.mem, L0, pages, baseAddr, endAddr, p, ClassSize(cls), k);
          }
          ClassForFits(size, need);
          return p, ClassSize(cls);
        }
      }
      ghost var m1, P1 := ram.mem, pages;
      ghost var k;
      p, k := AllocFromList(need);
      if p == 0 {
        return 0, 0;
      }
      ghost var T := blocks;
      TakeShape(L0, k, need);
      forall q, j ensures (ListLive(T, q, j) <==> ListLive(L0, q, j) || (q == p && j == T[k].size)) && !ListLive(L0, p, j) {
        TakeLive(L0, baseAddr, endAddr, k, need, q, j);
        TakeLive(L0, baseAddr, endAddr, k, need, p, j);
      }
      TakeLive(L0, baseAddr, endAddr, k, need, p, T[k].size);
      HeadersKeep(m1, ram.mem, T, L0, P1, baseAddr, endAddr);
      PagesAfterList(m1, ram.mem, T, P1, baseAddr, endAddr);
      HeadersInRange(m1, ram.mem, T, baseAddr, endAddr);
      ForeignList(m0, m1, ram.mem, bits, P0, baseAddr, endAddr);
      KeptTwice(m0, m1, ram.mem, L0, P0, P1);
      forall j ensures !SlabLive(P0, p, j) {
        if SlabLive(P1, p, j) { NotInList(m1, T, P1, baseAddr, endAddr, p, j, T[k].size); }
      }
      InTile(T, baseAddr, endAddr, k);
      HeaderReads(ram.mem, T, baseAddr, endAddr, k);
      n := Ld(ram.mem, p - HEADER);
    }

    /** Where a pointer that kfree may be given belongs. */
    ghost predicate OnList(p: int)
      reads this, ram
    {
      exists n :: ListLive(blocks, p, n)
    }

    ghost predicate OnTrackedPage(p: int)
      requires trackedCount <= |pages|
      reads this, ram
    {
      exists i, n :: 0 <= i < trackedCount && InSlab(pages[i], p, n)
    }

    /** What kfree reports as lying outside the heap. */
    ghost predicate Rejected(p: int)
      requires trackedCount <= |pages|
      reads this
    {
      (forall i :: 0 <= i < trackedCount ==> pages[i].addr != PageOf(p)) && (p < baseAddr + HEADER || p >= endAddr)
    }

    /** kfree of null, of a block handed out, or of a pointer outside the heap. The block is taken back, and only it,
        unless it lies on an untracked slab page: then nothing changes, as with a pointer outside. */
    method Kfree(p: u32)
      requires Valid() && (p == 0 || (exists n :: Owns(blocks, pages, p, n)) || Rejected(p))
      modifies ram`mem, this`pages, this`blocks, this`hint, this`nextFitHint
      ensures Valid() && |ram.mem| == |old(ram.mem)|
      ensures forall q, n :: Owns(blocks, pages, q, n) <==>
        Owns(old(blocks), old(pages), q, n) && !(q == p && p != 0 && old(OnList(p) || OnTrackedPage(p)))
      ensures Kept(old(ram.mem), ram.mem, blocks, pages) && SamePlaces(old(pages), pages) && |pages| == |old(pages)|
      ensures ForeignKept(old(ram.mem), ram.mem, frames.Bits(), old(pages), baseAddr, endAddr)
    {
      hide ForeignKept, RangeOnly, Tiles, Linked, Coalesced, PagesOk, St, Ld, WordAt, ClassSize, IsSlot, LastOf, LinkOk, Kept, Outside, TablesOk, Release,
        SlabLive, ListLive, Used, InUse, LastOk, OnlyHeaders, InSlab;
      ghost var m0, L0, P0, bits := ram.mem, blocks, pages, frames.Bits();
      NothingMoved(m0, L0, P0);
      NothingForeign(m0, bits, P0, baseAddr, endAddr);
      if p == 0 {
        NullNotOwned(m0, L0, P0, baseAddr, endAddr);
        return;
      }
      TrackedAre(P0, heads[..], tracked[..trackedCount]);
      if exists n :: Owns(L0, P0, p, n) {
        PageOfOwner(m0, L0, P0, baseAddr, endAddr, p, trackedCount);
      } else {
        NotOnPages(m0, L0, P0, p, trackedCount);
      }
      var slab := IsSlabPtr(p);
      if slab {
        ghost var i, n :| 0 <= i < trackedCount && InSlab(P0[i], p, n);
        SlabFree(p, i, n);
        ForeignStep(m0, m0, ram.mem, bits, P0[i].addr, P0, baseAddr, endAddr);
        forall q, j ensures q == p ==> !ListLive(L0, q, j) {
          InSlabLive(P0, i, p, n);
          NotInList(m0, L0, P0, baseAddr, endAddr, p, n, j);
        }
        return;
      }
      if p < baseAddr + HEADER || p >= endAddr {
        forall q, j ensures q == p ==> !ListLive(L0, q, j) {
          if ListLive(L0, p, j) { LiveBelowEnd(L0, baseAddr, endAddr, p, j); }
        }
        return;
      }
      ghost var k := ListOwner(m0, L0, P0, baseAddr, endAddr, p);
      FreeToList(p, k);
      ghost var R := blocks;
      forall q, j ensures ListLive(R, q, j) <==> ListLive(L0, q, j) && q != p {
        ReleaseLive(L0, baseAddr, endAddr, k, q, j);
      }
      forall j ensures !SlabLive(P0, p, j) {
        if SlabLive(P0, p, j) { NotInList(m0, L0, P0, baseAddr, endAddr, p, j, L0[k].size); }
      }
      HeadersKeep(m0, ram.mem, L0, R, P0, baseAddr, endAddr);
      PagesAfterList(m0, ram.mem, L0, P0, baseAddr, endAddr);
      HeadersInRange(m0, ram.mem, L0, baseAddr, endAddr);
      ForeignList(m0, m0, ram.mem, bits, P0, baseAddr, endAddr);
    }

    /** kmalloc_usable_size of a block that kfree can take back. */
    method UsableSize(p: u32, ghost n: int) returns (size: u32)
      requires Valid() && (p != 0 ==> Owns(blocks, pages, p, n) && (OnList(p) || OnTrackedPage(p)))
      ensures size == if p == 0 then 0 else n
    {
      hide Tiles, Linked, Coalesced, PagesOk, St, Ld, WordAt, ClassSize, IsSlot, LastOf, LinkOk, Kept, Outside, TablesOk,
        SlabLive, ListLive, Used, InUse, LastOk, InSlab, Owns;
      if p == 0 { return 0; }
      TrackedAre(pages, heads[..], tracked[..trackedCount]);
      PageOfOwner(ram.mem, blocks, pages, baseAddr, endAddr, p, trackedCount);
      var slab := IsSlabPtr(p);
      if slab {
        ghost var i, k :| 0 <= i < trackedCount && InSlab(pages[i], p, k);
        SizeInHeader(ram.mem, pages, i, p, k);
        InSlabLive(pages, i, p, k);
        OwnersApart(ram.mem, blocks, pages, baseAddr, endAddr, p, n, p, k) by { OwnedBySlab(blocks, pages, p, k); }
        return Ld(ram.mem, PageOf(p) + 4) % 0x1_0000;
      }
      ghost var k := ListOwner(ram.mem, blocks, pages, baseAddr, endAddr, p);
      HeaderWords(ram.mem, blocks, baseAddr, endAddr, k);
      LinkedAt(ram.mem, blocks, k);
      OwnersApart(ram.mem, blocks, pages, baseAddr, endAddr, p, n, p, blocks[k].size) by { OwnedByList(blocks, pages, k); }
      return Ld(ram.mem, p - HEADER);
    }

    /** heap_get_used */
    method GetUsed() returns (used: int)
      requires ListValid()
      ensures used == UsedBytes(blocks)
    {
      hide Tiles, Linked, Ld, WordAt, Coalesced;
      used := 0;
      var curr: int := heapStart;
      ghost var i := 0;
      TileEnds(blocks, baseAddr, endAddr);
      while curr != 0
        invariant 0 <= i <= |blocks| && curr == AddrOf(blocks, i) && used == UsedBytes(blocks[..i])
        decreases |blocks| - i
      {
        HeaderWords(ram.mem, blocks, baseAddr, endAddr, i);
        LinkedAt(ram.mem, blocks, i);
        if !Flag(Ld(ram.mem, curr + 4)) { used := used + Ld(ram.mem, curr) + HEADER; }
        assert blocks[..i + 1][..i] == blocks[..i];
        curr := Ld(ram.mem, curr + 8);
        i := i + 1;
      }
      EndOfList(ram.mem, blocks, baseAddr, endAddr, i);
      assert blocks[..|blocks|] == blocks;
    }

    /** heap_get_free */
    method GetFree() returns (space: int)
      requires ListValid()
      ensures space == FreeBytes(blocks)
    {
      hide Tiles, Linked, Ld, WordAt, Coalesced;
      space := 0;
      var curr: int := heapStart;
      ghost var i := 0;
      TileEnds(blocks, baseAddr, endAddr);
      while curr != 0
        invariant 0 <= i <= |blocks| && curr == AddrOf(blocks, i) && space == FreeBytes(blocks[..i])
        decreases |blocks| - i
      {
        HeaderWords(ram.mem, blocks, baseAddr, endAddr, i);
        LinkedAt(ram.mem, blocks, i);
        if Flag(Ld(ram.mem, curr + 4)) { space := space + Ld(ram.mem, curr); }
        assert blocks[..i + 1][..i] == blocks[..i];
        curr := Ld(ram.mem, curr + 8);
        i := i + 1;
      }
      EndOfList(ram.mem, blocks, baseAddr, endAddr, i);
      assert blocks[..|blocks|] == blocks;
    }

    /** A caller writes a word of a block it owns: no allocator structure is disturbed. */
    method Store(a: int, v: u32, ghost p: int, ghost n: int)
      requires Valid() && Owns(blocks, pages, p, n) && p <= a < p + n && InMem(ram.mem, a)
      modifies ram`mem
      ensures Valid() && ram.mem == St(old(ram.mem), a, v)
    {
      hide Tiles, Linked, Coalesced, PagesOk, Ld, St, WordAt, Outside, TablesOk, Used, InUse, LastOk, Owns;
      StoreLinked(ram.mem, blocks, pages, baseAddr, endAddr, p, n, a, v);
      StorePages(ram.mem, blocks, pages, baseAddr, endAddr, p, n, a, v);
      ram.mem := St(ram.mem, a, v);
    }
  }
}
