/** Who owns which bytes: the blocks handed out by both tiers, that they never overlap,
    and how each allocator step changes the set of them. */
module HeapOwner {
  import opened Base
  import opened HeapList
  import opened HeapLinks
  import opened SlabPages

  /** `p` is a block of `n` bytes handed out by the block list. */
  ghost predicate ListLive(L: Blocks, p: int, n: int) {
    exists k :: 0 <= k < |L| && IsLive(L[k], p, n)
  }

  predicate IsLive(b: Block, p: int, n: int) { !b.free && b.addr + HEADER == p && b.size == n }

  /** `p` is a block of `n` bytes handed out by the slab tier. */
  ghost predicate SlabLive(pages: seq<Page>, p: int, n: int) {
    exists i :: 0 <= i < |pages| && InSlab(pages[i], p, n)
  }

  predicate InSlab(pg: Page, p: int, n: int) { pg.cls < CLASSES && LiveSlot(pg, p) && n == ClassSize(pg.cls) }

  ghost predicate Owns(L: Blocks, pages: seq<Page>, p: int, n: int) {
    ListLive(L, p, n) || SlabLive(pages, p, n)
  }

  /** No word of a block handed out differs. */
  ghost predicate Kept(m: Mem, m': Mem, L: Blocks, pages: seq<Page>) {
    && |m'| == |m|
    && forall p, n, a {:trigger Owns(L, pages, p, n), Ld(m', a)} ::
         Owns(L, pages, p, n) && p <= a < p + n && InMem(m, a) ==> Ld(m', a) == Ld(m, a)
  }

  /** The slab pages lie outside the heap region. */
  ghost predicate Outside(pages: seq<Page>, base: int, end: int) {
    forall i :: 0 <= i < |pages| ==> pages[i].addr + PAGE <= base || end <= pages[i].addr
  }

  // ---- no overlap

  lemma ListApart(L: Blocks, base: int, end: int, p: int, n: int, q: int, k: int)
    requires Tiles(L, base, end) && ListLive(L, p, n) && ListLive(L, q, k)
    ensures base <= p && 0 <= n && p + n <= end
    ensures if p == q then n == k else p + n <= q || q + k <= p
  {
    hide Tiles;
    var i :| 0 <= i < |L| && IsLive(L[i], p, n);
    var j :| 0 <= j < |L| && IsLive(L[j], q, k);
    InTile(L, base, end, i);
    InTile(L, base, end, j);
    if i < j { Ordered(L, base, end, i, j); }
    if j < i { Ordered(L, base, end, j, i); }
  }

  lemma SlabApart(m: Mem, pages: seq<Page>, p: int, n: int, q: int, k: int)
    requires PagesOk(m, pages) && SlabLive(pages, p, n) && SlabLive(pages, q, k)
    ensures if p == q then n == k else p + n <= q || q + k <= p
  {
    hide PagesOk, PageOk, PageShape, IsSlot, ClassSize;
    var i :| 0 <= i < |pages| && InSlab(pages[i], p, n);
    var j :| 0 <= j < |pages| && InSlab(pages[j], q, k);
    PageIs(m, pages, i);
    PageIs(m, pages, j);
    SlotInMem(m, pages[i], p);
    SlotInMem(m, pages[j], q);
    SlotsNonEmpty(pages[i].cls);
    SlotsNonEmpty(pages[j].cls);
    if i != j {
      PagesApart(m, pages, i, j);
    } else {
      if p < q { SlotsApart(m, pages[i], p, q); }
      if q < p { SlotsApart(m, pages[i], q, p); }
    }
  }

  lemma PageIs(m: Mem, pages: seq<Page>, i: nat)
    requires PagesOk(m, pages) && i < |pages|
    ensures PageOk(m, pages[i]) && PageShape(m, pages[i]) && ChainOk(m, pages, i) && Slots(pages[i])
  {
  }

  lemma SlabRange(m: Mem, pages: seq<Page>, base: int, end: int, p: int, n: int)
    requires PagesOk(m, pages) && Outside(pages, base, end) && SlabLive(pages, p, n)
    ensures p + n <= base || end + 16 <= p
  {
    hide PagesOk, PageOk, PageShape, IsSlot, ClassSize;
    var i :| 0 <= i < |pages| && InSlab(pages[i], p, n);
    PageIs(m, pages, i);
    SlotInMem(m, pages[i], p);
  }

  /** Ownership is exclusive: two blocks handed out are the same block or share no byte. */
  lemma OwnersApart(m: Mem, L: Blocks, pages: seq<Page>, base: int, end: int, p: int, n: int, q: int, k: int)
    requires Tiles(L, base, end) && PagesOk(m, pages) && Outside(pages, base, end)
    requires Owns(L, pages, p, n) && Owns(L, pages, q, k)
    ensures if p == q then n == k else p + n <= q || q + k <= p
  {
    hide Tiles, PagesOk, ListLive, SlabLive, Outside;
    if ListLive(L, p, n) { ListApart(L, base, end, p, n, p, n); } else { SlabRange(m, pages, base, end, p, n); }
    if ListLive(L, q, k) { ListApart(L, base, end, q, k, q, k); } else { SlabRange(m, pages, base, end, q, k); }
    if ListLive(L, p, n) && ListLive(L, q, k) { ListApart(L, base, end, p, n, q, k); }
    if SlabLive(pages, p, n) && SlabLive(pages, q, k) { SlabApart(m, pages, p, n, q, k); SlabSize(m, pages, p, n); }
    if SlabLive(pages, p, n) && !SlabLive(pages, q, k) { SlabSize(m, pages, p, n); }
    if SlabLive(pages, q, k) && !SlabLive(pages, p, n) { SlabSize(m, pages, q, k); }
  }

  lemma SlabSize(m: Mem, pages: seq<Page>, p: int, n: int)
    requires SlabLive(pages, p, n)
    ensures 16 <= n <= 256
  {
    var i :| 0 <= i < |pages| && InSlab(pages[i], p, n);
    SlotsNonEmpty(pages[i].cls);
  }

  // ---- steps of the block list

  /** Taking block k hands out exactly that block. */
  lemma TakeLive(L: Blocks, base: int, end: int, k: nat, size: int, p: int, n: int)
    requires Tiles(L, base, end) && k < |L| && Fits(L[k], size) && size >= 0 && size % 16 == 0
    ensures var T := Take(L, k, size);
      && T[k].size >= size && T[k].addr == L[k].addr && !T[k].free
      && (ListLive(T, p, n) <==> ListLive(L, p, n) || (p == L[k].addr + HEADER && n == T[k].size))
      && !ListLive(L, L[k].addr + HEADER, n)
  {
    hide Take, Tiles;
    var T := Take(L, k, size);
    TakeShape(L, k, size);
    var d := if Splits(L[k], size) then 1 else 0;
    if ListLive(T, p, n) {
      var i :| 0 <= i < |T| && IsLive(T[i], p, n);
      if i != k { assert IsLive(L[if i < k then i else i - d], p, n); }
    }
    if ListLive(L, p, n) {
      var i :| 0 <= i < |L| && IsLive(L[i], p, n);
      assert IsLive(T[if i < k then i else i + d], p, n);
    }
    if ListLive(L, L[k].addr + HEADER, n) {
      var i :| 0 <= i < |L| && IsLive(L[i], L[k].addr + HEADER, n);
      Apart(L, base, end, i, k);
      assert false;
    }
  }

  lemma JoinLive(L: Blocks, k: nat, p: int, n: int)
    requires k + 1 < |L| && L[k].free && L[k + 1].free
    ensures ListLive(Join(L, k), p, n) <==> ListLive(L, p, n)
  {
    hide Join;
    var J := Join(L, k);
    JoinShape(L, k);
    if ListLive(J, p, n) {
      var i :| 0 <= i < |J| && IsLive(J[i], p, n);
      assert IsLive(L[if i <= k then i else i + 1], p, n);
    }
    if ListLive(L, p, n) {
      var i :| 0 <= i < |L| && IsLive(L[i], p, n);
      assert IsLive(J[if i <= k then i else i - 1], p, n);
    }
  }

  /** Releasing block k takes back exactly that block. */
  lemma ReleaseLive(L: Blocks, base: int, end: int, k: nat, p: int, n: int)
    requires Tiles(L, base, end) && k < |L| && !L[k].free
    ensures ListLive(Release(L, k), p, n) <==> ListLive(L, p, n) && p != L[k].addr + HEADER
  {
    hide Join, Tiles;
    var L0 := L[k := L[k].(free := true)];
    FlagLive(L, base, end, k, p, n);
    if k + 1 < |L0| && L0[k + 1].free { JoinShape(L0, k); JoinLive(L0, k, p, n); }
    var L1 := JoinNext(L0, k);
    if k > 0 && L1[k - 1].free { JoinLive(L1, k - 1, p, n); }
  }

  lemma FlagLive(L: Blocks, base: int, end: int, k: nat, p: int, n: int)
    requires Tiles(L, base, end) && k < |L|
    ensures ListLive(L[k := L[k].(free := true)], p, n) <==> ListLive(L, p, n) && p != L[k].addr + HEADER
  {
    hide Tiles;
    var L0 := L[k := L[k].(free := true)];
    if ListLive(L, p, n) && p != L[k].addr + HEADER {
      var i :| 0 <= i < |L| && IsLive(L[i], p, n);
      assert IsLive(L0[i], p, n);
    }
    if ListLive(L0, p, n) {
      var i :| 0 <= i < |L0| && IsLive(L0[i], p, n);
      Apart(L, base, end, i, k);
      assert IsLive(L[i], p, n);
    }
  }

  /** Writing only headers leaves the bytes of every block handed out. */
  lemma HeadersKeep(m: Mem, m': Mem, T: Blocks, L: Blocks, pages: seq<Page>, base: int, end: int)
    requires Tiles(T, base, end) && OnlyHeaders(m, m', T) && |m'| == |m| && PagesOk(m, pages) && Outside(pages, base, end)
    requires forall p, n :: ListLive(L, p, n) ==> ListLive(T, p, n)
    ensures Kept(m, m', L, pages)
  {
    hide Tiles, PagesOk, Outside, SlabLive, OnlyHeaders, Ld, WordAt;
    forall p, n, a | Owns(L, pages, p, n) && p <= a < p + n && InMem(m, a) ensures Ld(m', a) == Ld(m, a) {
      if ListLive(L, p, n) {
        var i :| 0 <= i < |T| && IsLive(T[i], p, n);
        NotHeader(T, base, end, a);
      } else {
        SlabRange(m, pages, base, end, p, n);
        NotHeader(T, base, end, a);
      }
      UnchangedWord(m, m', T, a);
    }
  }

  lemma UnchangedWord(m: Mem, m': Mem, T: Blocks, a: int)
    requires OnlyHeaders(m, m', T) && InMem(m, a) && !InHeader(T, a)
    ensures |m'| == |m| && Ld(m', a) == Ld(m, a)
  {
  }

  // ---- steps of the slab tier

  /** A block of page i is a block of no other page. */
  lemma OnePage(m: Mem, pages: seq<Page>, i: nat, a: int, j: nat, n: int)
    requires PagesOk(m, pages) && i < |pages| && j < |pages| && i != j && pages[i].cls < CLASSES
    requires IsSlot(pages[i].addr, pages[i].cls, a)
    ensures !InSlab(pages[j], a, n)
  {
    hide PagesOk, PageOk, PageShape;
    PageIs(m, pages, i);
    PageIs(m, pages, j);
    PagesApart(m, pages, i, j);
    SlotsNonEmpty(pages[i].cls);
    if InSlab(pages[j], a, n) { SlotsNonEmpty(pages[j].cls); assert false; }
  }

  /** Popping the first free block of page i hands out exactly that block. */
  lemma PopLive(m: Mem, pages: seq<Page>, i: nat, p: int, n: int)
    requires PagesOk(m, pages) && i < |pages| && pages[i].free != []
    ensures var a := pages[i].free[0];
      var q := pages[i].(free := pages[i].free[1..]);
      && (SlabLive(pages[i := q], p, n) <==> SlabLive(pages, p, n) || (p == a && n == ClassSize(q.cls)))
      && !SlabLive(pages, a, n)
  {
    hide PagesOk, PageOk, IsSlot, ClassSize;
    PageIs(m, pages, i);
    var a := pages[i].free[0];
    var q := pages[i].(free := pages[i].free[1..]);
    PopSlot(pages[i], p);
    SlabSwap(m, pages, i, q, p, n);
    SlabSwap(m, pages, i, q, a, n);
  }

  lemma PopSlot(pg: Page, p: int)
    requires pg.cls < CLASSES && Slots(pg) && pg.free != []
    ensures IsSlot(pg.addr, pg.cls, pg.free[0])
    ensures LiveSlot(pg.(free := pg.free[1..]), p) <==> LiveSlot(pg, p) || p == pg.free[0]
    ensures !LiveSlot(pg, pg.free[0])
  {
    hide IsSlot;
    assert pg.free == [pg.free[0]] + pg.free[1..];
  }

  /** Pushing a block back takes back exactly that block. */
  lemma PushLive(m: Mem, pages: seq<Page>, i: nat, a: int, p: int, n: int)
    requires PagesOk(m, pages) && i < |pages| && pages[i].cls < CLASSES && LiveSlot(pages[i], a)
    ensures var q := pages[i].(free := [a] + pages[i].free);
      SlabLive(pages[i := q], p, n) <==> SlabLive(pages, p, n) && p != a
  {
    hide PagesOk, PageOk, IsSlot, ClassSize;
    PageIs(m, pages, i);
    var q := pages[i].(free := [a] + pages[i].free);
    SlabSwap(m, pages, i, q, p, n);
    if p == a {
      forall j | 0 <= j < |pages| && j != i ensures !InSlab(pages[j], a, n) { OnePage(m, pages, i, a, j, n); }
    }
  }

  /** Replacing page i: ownership elsewhere stays as it was. */
  lemma SlabSwap(m: Mem, pages: seq<Page>, i: nat, q: Page, p: int, n: int)
    requires PagesOk(m, pages) && i < |pages| && q.cls == pages[i].cls && q.addr == pages[i].addr
    ensures SlabLive(pages[i := q], p, n) <==>
      InSlab(q, p, n) || exists j :: 0 <= j < |pages| && j != i && InSlab(pages[j], p, n)
    ensures SlabLive(pages, p, n) <==>
      InSlab(pages[i], p, n) || exists j :: 0 <= j < |pages| && j != i && InSlab(pages[j], p, n)
    ensures q.cls < CLASSES && IsSlot(q.addr, q.cls, p) ==> !exists j :: 0 <= j < |pages| && j != i && InSlab(pages[j], p, n)
  {
    hide InSlab, PagesOk, IsSlot;
    var pages' := pages[i := q];
    if SlabLive(pages', p, n) {
      var j :| 0 <= j < |pages'| && InSlab(pages'[j], p, n);
      assert j != i ==> pages[j] == pages'[j];
    }
    if InSlab(q, p, n) { assert InSlab(pages'[i], p, n); }
    if j :| 0 <= j < |pages| && j != i && InSlab(pages[j], p, n) {
      assert InSlab(pages'[j], p, n);
      if q.cls < CLASSES && IsSlot(q.addr, q.cls, p) { OnePage(m, pages, i, p, j, n); }
    }
  }

  /** A new page with every block free owns nothing. */
  lemma NewPageLive(pages: seq<Page>, q: Page, p: int, n: int)
    requires q.cls < CLASSES && forall a :: IsSlot(q.addr, q.cls, a) ==> a in q.free
    ensures SlabLive(pages + [q], p, n) <==> SlabLive(pages, p, n)
  {
    hide IsSlot;
    var pages' := pages + [q];
    if SlabLive(pages', p, n) {
      var j :| 0 <= j < |pages'| && InSlab(pages'[j], p, n);
      assert j < |pages|;
    }
    if SlabLive(pages, p, n) {
      var j :| 0 <= j < |pages| && InSlab(pages[j], p, n);
      assert InSlab(pages'[j], p, n);
    }
  }

  /** Writes to the header of page i and to one of its free blocks leave the bytes of every
      block handed out. */
  lemma PageKeeps(m: Mem, m': Mem, cells: set<int>, L: Blocks, pages: seq<Page>, base: int, end: int, i: nat)
    requires Tiles(L, base, end) && PagesOk(m, pages) && Outside(pages, base, end) && i < |pages| && pages[i].cls < CLASSES
    requires DiffersAt(m, m', cells)
    requires forall c :: c in cells ==> pages[i].addr <= c < pages[i].addr + PAGE && !InLiveSlot(pages[i], c)
    ensures Kept(m, m', L, pages)
  {
    hide Tiles, PagesOk, Ld, WordAt, InLiveSlot, ClassSize, PageOk, PageShape;
    forall p, n, a | Owns(L, pages, p, n) && p <= a < p + n && InMem(m, a) ensures InMem(m', a) && Ld(m', a) == Ld(m, a) {
      if a in cells {
        if ListLive(L, p, n) {
          ListApart(L, base, end, p, n, p, n);
        } else {
          var j :| 0 <= j < |pages| && InSlab(pages[j], p, n);
          PageIs(m, pages, i);
          PageIs(m, pages, j);
          SlotInMem(m, pages[j], p);
          if j == i { LiveSlotHas(pages[i], p, a); } else { PagesApart(m, pages, i, j); }
        }
        assert false;
      }
    }
  }

  lemma LiveSlotHas(pg: Page, p: int, a: int)
    requires pg.cls < CLASSES && LiveSlot(pg, p) && p <= a < p + ClassSize(pg.cls)
    ensures InLiveSlot(pg, a)
  {
  }

  /** Writes inside a range that holds no block handed out. */
  lemma RangeKeeps(m: Mem, m': Mem, lo: int, hi: int, L: Blocks, pages: seq<Page>, base: int, end: int)
    requires Tiles(L, base, end) && PagesOk(m, pages) && RangeOnly(m, m', lo, hi) && (hi <= base || end <= lo)
    requires forall i :: 0 <= i < |pages| ==> pages[i].addr + PAGE <= lo || hi <= pages[i].addr
    ensures Kept(m, m', L, pages)
  {
    hide Tiles, PagesOk, Ld, WordAt, ClassSize, PageOk, PageShape;
    forall p, n, a | Owns(L, pages, p, n) && p <= a < p + n && InMem(m, a) ensures InMem(m', a) && Ld(m', a) == Ld(m, a) {
      if ListLive(L, p, n) {
        ListApart(L, base, end, p, n, p, n);
      } else {
        var j :| 0 <= j < |pages| && InSlab(pages[j], p, n);
        PageIs(m, pages, j);
        SlotInMem(m, pages[j], p);
      }
    }
  }
}
