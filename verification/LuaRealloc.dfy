/** lib/lua/lua_shim.c: realloc on top of the kernel heap. */
module LuaRealloc {
  import opened Arith
  import opened Base
  import opened HeapList
  import opened HeapLinks
  import opened SlabPages
  import opened HeapOwner
  import opened Heap
  import opened HeapSteps

  /** The bytes of the block at p in m, word by word, are those of the block at q in m'. */
  ghost predicate SameBytes(m: Mem, p: int, m': Mem, q: int, n: int) {
    forall i :: 0 <= i < n && i % 4 == 0 && InMem(m, p + i) ==> InMem(m', q + i) && Ld(m', q + i) == Ld(m, p + i)
  }

  /** memcpy of a whole block into another one. */
  method CopyBlock(h: KernelHeap, dst: int, src: int, n: int, ghost k: int)
    requires h.Valid() && n <= k && (dst + k <= src || src + n <= dst)
    requires Owns(h.blocks, h.pages, dst, k) && Owns(h.blocks, h.pages, src, n)
    modifies h.ram`mem
    ensures h.Valid() && |h.ram.mem| == |old(h.ram.mem)| && SameBytes(old(h.ram.mem), src, h.ram.mem, dst, n)
    ensures forall a :: InMem(h.ram.mem, a) && !(dst <= a < dst + k) ==> Ld(h.ram.mem, a) == Ld(old(h.ram.mem), a)
  {
    hide Tiles, Linked, Coalesced, PagesOk, St, Ld, Outside, TablesOk, Owns, WordAt;
    ghost var m0 := h.ram.mem;
    OwnedWords(h.ram.mem, h.blocks, h.pages, h.baseAddr, h.endAddr, src, n);
    OwnedWords(h.ram.mem, h.blocks, h.pages, h.baseAddr, h.endAddr, dst, k);
    var i := 0;
    while i < n
      invariant 0 <= i <= n && i % 4 == 0 && h.Valid() && |h.ram.mem| == |m0|
      invariant SameBytes(m0, src, h.ram.mem, dst, i) && RangeOnly(m0, h.ram.mem, dst, dst + i)
    {
      WordInBlock(h.ram.mem, src, n, i);
      WordInBlock(h.ram.mem, dst, k, i);
      ghost var m1 := h.ram.mem;
      h.Store(dst + i, Ld(h.ram.mem, src + i), dst, k);
      CopyStep(m0, m1, h.ram.mem, src, dst, n, i);
      i := i + 4;
    }
  }

  /** One more word copied: it was still unchanged in the source. */
  lemma CopyStep(m0: Mem, m1: Mem, m2: Mem, src: int, dst: int, n: int, i: int)
    requires 0 <= i < n && i % 4 == 0 && (dst + i <= src || src + n <= dst)
    requires SameBytes(m0, src, m1, dst, i) && RangeOnly(m0, m1, dst, dst + i) && |m2| == |m1|
    requires InMem(m1, src + i) && InMem(m1, dst + i)
    requires m2 == St(m1, dst + i, Ld(m1, src + i))
    ensures SameBytes(m0, src, m2, dst, i + 4) && RangeOnly(m0, m2, dst, dst + i + 4)
  {
    hide Ld, St, WordAt;
    SameLength(m0, m1, m2);
    forall j | 0 <= j < i + 4 && j % 4 == 0 && InMem(m0, src + j)
      ensures InMem(m2, dst + j) && Ld(m2, dst + j) == Ld(m0, src + j)
    {
      Next4(j, i);
    }
  }

  lemma SameLength(m0: Mem, m1: Mem, m2: Mem)
    requires |m0| == |m1| == |m2|
    ensures forall a :: InMem(m0, a) <==> InMem(m2, a)
    ensures forall a :: InMem(m0, a) <==> InMem(m1, a)
  {
  }

  /** The rest of realloc when the block is too small: allocate, copy and free. `k` is the usable size of the new block.
      `overrun` says that the old one has more bytes than that, so that the copy leaves the new block; then the model stops
      before the copy. Only a size that wraps in kmalloc brings such a block. */
  method Grow(h: KernelHeap, ptr: u32, newSize: u32, oldSize: u32, ghost n: int) returns (r: u32, k: int, overrun: bool)
    requires h.Valid() && ptr != 0 && oldSize == n < newSize
    requires Owns(h.blocks, h.pages, ptr, n) && (h.OnList(ptr) || h.OnTrackedPage(ptr))
    modifies h.ram`mem, h`pages, h`trackedCount, h.heads, h.tracked, h`blocks, h`hint, h`nextFitHint
    modifies h.frames`usedPages, h.frames`lastAllocHint, h.frames.bitmap
    ensures overrun <==> r != 0 && k < n
    ensures r != 0 ==> (k >= newSize <==> newSize + 15 < WORD)
    ensures !overrun ==> h.Valid() && |h.ram.mem| == |old(h.ram.mem)|
    ensures r == 0 ==> NoRoom(old(h.blocks), old(h.pages), old(h.frames.Bits()), newSize)
    ensures r == 0 ==> forall q, j :: Owns(h.blocks, h.pages, q, j) <==> Owns(old(h.blocks), old(h.pages), q, j)
    ensures r != 0 ==> forall j :: !Owns(old(h.blocks), old(h.pages), r, j)
    ensures r != 0 && !overrun ==> SameBytes(old(h.ram.mem), ptr, h.ram.mem, r, n) && forall q, j ::
      Owns(h.blocks, h.pages, q, j) <==> (Owns(old(h.blocks), old(h.pages), q, j) && q != ptr) || (q == r && j == k)
    ensures !overrun ==> forall q, j, a {:trigger Owns(old(h.blocks), old(h.pages), q, j), Ld(h.ram.mem, a)} ::
      Owns(old(h.blocks), old(h.pages), q, j) && q != ptr && q <= a < q + j && InMem(h.ram.mem, a) ==>
        Ld(h.ram.mem, a) == Ld(old(h.ram.mem), a)
  {
    hide Tiles, Linked, Coalesced, PagesOk, St, Ld, Outside, TablesOk, Owns, WordAt, ListLive, SlabLive, InSlab, Pmm.Used, Pmm.InUse, LastOk, NoRoom, SlabStep, ListStep, SlabCan;
    ghost var m0, L0, P0 := h.ram.mem, h.blocks, h.pages;
    TrackedAre(P0, h.heads[..], h.tracked[..h.trackedCount]);
    r, k := h.Kmalloc(newSize);
    TrackedAre(h.pages, h.heads[..], h.tracked[..h.trackedCount]);
    ghost var m1 := h.ram.mem;
    KeptMeans(m0, m1, L0, P0);
    OwnedWords(m0, L0, P0, h.baseAddr, h.endAddr, ptr, n);
    overrun := r != 0 && k < oldSize;
    if r != 0 && !overrun {
      OwnersApart(m1, h.blocks, h.pages, h.baseAddr, h.endAddr, r, k, ptr, n);
      OwnedWords(m1, h.blocks, h.pages, h.baseAddr, h.endAddr, r, k);
      CopyBlock(h, r, ptr, oldSize, k);
      ghost var m2 := h.ram.mem;
      StillReturnable(m0, L0, P0, m2, h.blocks, h.pages, h.baseAddr, h.endAddr, ptr, n, old(h.trackedCount), h.trackedCount);
      ghost var L1, P1 := h.blocks, h.pages;
      h.Kfree(ptr);
      KeptMeans(m2, h.ram.mem, h.blocks, h.pages);
      forall q, j, a | Owns(L0, P0, q, j) && q != ptr && q <= a < q + j && InMem(m0, a)
        ensures InMem(h.ram.mem, a) && Ld(h.ram.mem, a) == Ld(m0, a)
      {
        OwnersApart(m1, L1, P1, h.baseAddr, h.endAddr, r, k, q, j);
        KeptWord(m0, m1, L0, P0, q, j, a);
        assert InMem(m2, a) && Ld(m2, a) == Ld(m1, a);
        KeptWord(m2, h.ram.mem, h.blocks, h.pages, q, j, a);
      }
      BytesKept(m0, ptr, m2, h.ram.mem, r, n, k, h.blocks, h.pages);
    }
  }

  /** realloc. `k` is the usable size of the result. The bytes of the old block, up to its
      usable size, are the first bytes of the result, and no byte of any other block changes,
      unless the copy leaves the new block. */
  method Realloc(h: KernelHeap, ptr: u32, newSize: u32, ghost n: int) returns (r: u32, ghost k: int, overrun: bool)
    requires h.Valid()
    requires ptr != 0 ==> Owns(h.blocks, h.pages, ptr, n) && (h.OnList(ptr) || h.OnTrackedPage(ptr))
    modifies h.ram`mem, h`pages, h`trackedCount, h.heads, h.tracked, h`blocks, h`hint, h`nextFitHint
    modifies h.frames`usedPages, h.frames`lastAllocHint, h.frames.bitmap
    ensures overrun <==> r != 0 && ptr != 0 && newSize > n > k
    ensures r != 0 && (ptr == 0 || newSize > n) ==> (k >= newSize <==> newSize + 15 < WORD)
    ensures !overrun ==> h.Valid() && |h.ram.mem| == |old(h.ram.mem)|
    ensures newSize == 0 ==> r == 0 && forall q, j :: Owns(h.blocks, h.pages, q, j) <==>
      Owns(old(h.blocks), old(h.pages), q, j) && (ptr != 0 ==> q != ptr)
    ensures newSize != 0 && ptr != 0 && newSize <= n ==>
      r == ptr && k == n && h.ram.mem == old(h.ram.mem) && h.blocks == old(h.blocks) && h.pages == old(h.pages)
    ensures newSize != 0 && r == 0 ==>
      (ptr == 0 || newSize > n) && NoRoom(old(h.blocks), old(h.pages), old(h.frames.Bits()), newSize) && forall q, j :: Owns(h.blocks, h.pages, q, j) <==> Owns(old(h.blocks), old(h.pages), q, j)
    ensures newSize != 0 && (ptr == 0 || newSize > n) && r != 0 ==> forall j :: !Owns(old(h.blocks), old(h.pages), r, j)
    ensures newSize != 0 && (ptr == 0 || newSize > n) && r != 0 && !overrun ==> forall q, j :: Owns(h.blocks, h.pages, q, j) <==>
      (Owns(old(h.blocks), old(h.pages), q, j) && (ptr != 0 ==> q != ptr)) || (q == r && j == k)
    ensures r != 0 && ptr != 0 && !overrun ==> SameBytes(old(h.ram.mem), ptr, h.ram.mem, r, Min(n, newSize))
    ensures !overrun ==> forall q, j, a {:trigger Owns(old(h.blocks), old(h.pages), q, j), Ld(h.ram.mem, a)} ::
      Owns(old(h.blocks), old(h.pages), q, j) && (ptr != 0 ==> q != ptr) && q <= a < q + j && InMem(h.ram.mem, a) ==>
        Ld(h.ram.mem, a) == Ld(old(h.ram.mem), a)
  {
    hide Tiles, Linked, Coalesced, PagesOk, St, Ld, Outside, TablesOk, Owns, WordAt, ListLive, SlabLive, InSlab, Pmm.Used, Pmm.InUse, LastOk, NoRoom, SlabStep, ListStep, SlabCan;
    ghost var m0, L0, P0 := h.ram.mem, h.blocks, h.pages;
    k, overrun := 0, false;
    if newSize == 0 {
      h.Kfree(ptr);
      KeptMeans(m0, h.ram.mem, h.blocks, h.pages);
      return 0, 0, false;
    }
    if ptr == 0 {
      r, k := h.Kmalloc(newSize);
      KeptMeans(m0, h.ram.mem, L0, P0);
      return;
    }
    var oldSize := h.UsableSize(ptr, n);
    if newSize <= oldSize {
      k := n;
      r := ptr;
      return;
    }
    r, k, overrun := Grow(h, ptr, newSize, oldSize, n);
  }

  /** A block that kfree could take back still can after an allocation. */
  lemma StillReturnable(m0: Mem, L0: Blocks, P0: seq<Page>, m: Mem, L: Blocks, P: seq<Page>, base: int, end: int,
                        p: int, n: int, c0: nat, c: nat)
    requires Tiles(L0, base, end) && LastOk(L0) && PagesOk(m0, P0) && Outside(P0, base, end) && Owns(L0, P0, p, n)
    requires Tiles(L, base, end) && LastOk(L) && PagesOk(m, P) && Outside(P, base, end) && Owns(L, P, p, n)
    requires SamePlaces(P0, P) && c0 <= |P0| && c0 <= c <= |P|
    requires forall k :: ListLive(L0, p, k) ==> ListLive(L, p, k)
    requires (exists k :: ListLive(L0, p, k)) || exists i, k :: 0 <= i < c0 && InSlab(P0[i], p, k)
    ensures (exists k :: ListLive(L, p, k)) || exists i, k :: 0 <= i < c && InSlab(P[i], p, k)
  {
    hide Tiles, LastOk, PagesOk, Outside, Owns, ListLive, InSlab;
    if !exists k :: ListLive(L0, p, k) {
      PageOfOwner(m0, L0, P0, base, end, p, c0);
      PageOfOwner(m, L, P, base, end, p, c);
      var i :| 0 <= i < c0 && P0[i].addr == PageOf(p);
      assert P[i].addr == PageOf(p);
    }
  }

  lemma BytesKept(m0: Mem, p: int, m2: Mem, m3: Mem, r: int, n: int, k: int, L: Blocks, P: seq<Page>)
    requires SameBytes(m0, p, m2, r, n) && Kept(m2, m3, L, P) && Owns(L, P, r, k) && n <= k
    ensures SameBytes(m0, p, m3, r, n)
  {
    hide Owns, Ld, WordAt;
  }

  lemma KeptWord(m: Mem, m': Mem, L: Blocks, P: seq<Page>, p: int, n: int, a: int)
    requires Kept(m, m', L, P) && Owns(L, P, p, n) && p <= a < p + n && InMem(m, a)
    ensures InMem(m', a) && Ld(m', a) == Ld(m, a)
  {
    hide Owns, Ld;
  }

  lemma KeptMeans(m: Mem, m': Mem, L: Blocks, pages: seq<Page>)
    requires Kept(m, m', L, pages)
    ensures |m'| == |m|
  {
  }
}
