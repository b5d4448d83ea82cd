/** The slab tier: pages of equal blocks, each with its free blocks chained through
    their first words. */
module SlabPages {
  import opened Arith
  import opened Base
  import opened HeapList
  import opened HeapLinks

  const PAGE: int := 4096
  const CLASSES: int := 5
  const MAX_SLAB: int := 256

  function ClassSize(c: nat): int
    requires c < CLASSES
  {
    match c case 0 => 16 case 1 => 32 case 2 => 64 case 3 => 128 case _ => 256
  }

  /** A slab page and its free blocks, in chain order. */
  datatype Page = Page(addr: int, cls: nat, free: seq<int>)

  /** `a` is a block of the page: aligned to the block size, behind the page header. */
  predicate IsSlot(addr: int, cls: nat, a: int)
    requires cls < CLASSES
  {
    (a - addr) % ClassSize(cls) == 0 && addr + ClassSize(cls) <= a <= addr + PAGE - ClassSize(cls)
  }

  function Head(free: seq<int>): int { if free == [] then 0 else free[0] }

  function NextFree(free: seq<int>, i: nat): int { if i + 1 < |free| then free[i + 1] else 0 }

  predicate LinkOk(m: Mem, free: seq<int>, i: nat)
    requires i < |free|
  {
    InMem(m, free[i]) && Ld(m, free[i]) == NextFree(free, i)
  }

  predicate PageShape(m: Mem, p: Page) {
    && p.addr > 0 && p.addr % PAGE == 0 && p.addr + PAGE <= 4 * |m| && p.addr + PAGE <= WORD && p.cls < CLASSES
    && InMem(m, p.addr) && InMem(m, p.addr + 4) && InMem(m, p.addr + 8)
  }

  ghost predicate Slots(p: Page)
    requires p.cls < CLASSES
  {
    && (forall i :: 0 <= i < |p.free| ==> IsSlot(p.addr, p.cls, p.free[i]))
    && (forall i, j :: 0 <= i < j < |p.free| ==> p.free[i] != p.free[j])
  }

  /** The page header and the chain of free blocks in memory. */
  ghost predicate PageOk(m: Mem, p: Page) {
    && PageShape(m, p) && Slots(p)
    && Ld(m, p.addr + 4) == ClassSize(p.cls) + 0x1_0000 * |p.free|
    && Ld(m, p.addr + 8) == Head(p.free)
    && (forall i :: 0 <= i < |p.free| ==> LinkOk(m, p.free, i))
  }

  /** `block` is handed out. */
  predicate LiveSlot(p: Page, a: int)
    requires p.cls < CLASSES
  {
    IsSlot(p.addr, p.cls, a) && a !in p.free
  }

  lemma {:induction false} DistinctBelow(s: seq<int>, n: nat)
    requires forall i :: 0 <= i < |s| ==> 0 <= s[i] < n
    requires forall i, j :: 0 <= i < j < |s| ==> s[i] != s[j]
    ensures |s| <= n
  {
    if s != [] {
      assert s[0] < n;
      if k :| 0 <= k < |s| && s[k] == n - 1 {
        var r := s[..k] + s[k + 1..];
        assert forall i :: 0 <= i < |r| ==> r[i] == s[if i < k then i else i + 1];
        DistinctBelow(r, n - 1);
      } else {
        DistinctBelow(s, n - 1);
      }
    }
  }

  /** The 16-bit free count never overflows. */
  lemma FreeCountSmall(p: Page)
    requires p.cls < CLASSES && Slots(p)
    ensures |p.free| <= 4096
  {
    var s := seq(|p.free|, i requires 0 <= i < |p.free| => p.free[i] - p.addr);
    forall i | 0 <= i < |s| ensures 0 <= s[i] < 4096 { assert IsSlot(p.addr, p.cls, p.free[i]); }
    DistinctBelow(s, 4096);
  }

  lemma SlotAligned(d: int, c: nat)
    requires c < CLASSES && d % ClassSize(c) == 0
    ensures d % 16 == 0
  {
    match c
    case 0 =>
    case 1 => Times16(2 * (d / 32));
    case 2 => Times16(4 * (d / 64));
    case 3 => Times16(8 * (d / 128));
    case _ => Times16(16 * (d / 256));
  }

  lemma PagePlus(addr: int, d: int)
    requires addr % PAGE == 0 && d % 16 == 0
    ensures (addr + d) % 16 == 0
  {
    Times16(256 * (addr / PAGE) + d / 16);
    assert addr + d == 16 * (256 * (addr / PAGE) + d / 16);
  }

  lemma SlotInMem(m: Mem, p: Page, a: int)
    requires PageShape(m, p) && IsSlot(p.addr, p.cls, a)
    ensures a % 16 == 0 && InMem(m, a) && p.addr + 16 <= a && a + ClassSize(p.cls) <= p.addr + PAGE && 0 < a < WORD
  {
    SlotAligned(a - p.addr, p.cls);
    PagePlus(p.addr, a - p.addr);
    Times4(4 * (a / 16));
  }

  /** Two blocks of a page are the same or do not overlap. */
  lemma SlotsApart(m: Mem, p: Page, a: int, b: int)
    requires PageShape(m, p) && IsSlot(p.addr, p.cls, a) && IsSlot(p.addr, p.cls, b) && a < b
    ensures a + ClassSize(p.cls) <= b
  {
    SlotStep(b - p.addr, a - p.addr, p.cls);
  }

  lemma SlotStep(x: int, y: int, c: nat)
    requires c < CLASSES && x % ClassSize(c) == 0 && y % ClassSize(c) == 0 && x > y
    ensures x >= y + ClassSize(c)
  {
    match c
    case 0 => Next16(x, y);
    case 1 => Next32(x, y);
    case 2 => Next64(x, y);
    case 3 => Next128(x, y);
    case _ => Next256(x, y);
  }

  // ---- pop and push

  /** The words of the page header an allocation or release writes. */
  ghost function HeaderCells(p: Page): set<int> { {p.addr + 4, p.addr + 8} }

  lemma PopOk(m: Mem, m': Mem, p: Page)
    requires PageOk(m, p) && p.free != [] && DiffersAt(m, m', HeaderCells(p)) && LinkOk(m, p.free, 0) && PageShape(m', p)
    requires Ld(m', p.addr + 4) == ClassSize(p.cls) + 0x1_0000 * (|p.free| - 1)
    requires Ld(m', p.addr + 8) == Ld(m, p.free[0])
    ensures PageOk(m', p.(free := p.free[1..])) && LiveSlot(p.(free := p.free[1..]), p.free[0])
  {
    hide IsSlot, St, Ld, PageShape, ClassSize;
    var q := p.(free := p.free[1..]);
    assert PageShape(m', q) by { SameShape(m, m', p, q); }
    assert LinkOk(m, p.free, 0);
    forall i | 0 <= i < |q.free| ensures LinkOk(m', q.free, i) {
      assert LinkOk(m, p.free, i + 1);
      SlotInMem(m, p, p.free[i + 1]);
    }
  }

  lemma SameShape(m: Mem, m': Mem, p: Page, q: Page)
    requires PageShape(m, p) && |m'| == |m| && q.addr == p.addr && q.cls == p.cls
    ensures PageShape(m', q) && InMem(m, p.addr + 4) && InMem(m, p.addr + 8) && InMem(m, p.addr)
  {
  }

  lemma PushOk(m: Mem, m': Mem, p: Page, a: int)
    requires PageOk(m, p) && LiveSlot(p, a) && DiffersAt(m, m', HeaderCells(p) + {a}) && PageShape(m', p)
    requires Ld(m', p.addr + 4) == ClassSize(p.cls) + 0x1_0000 * (|p.free| + 1)
    requires Ld(m', p.addr + 8) == a && InMem(m', a) && Ld(m', a) == Head(p.free)
    ensures PageOk(m', p.(free := [a] + p.free))
  {
    hide IsSlot, St, Ld, PageShape, ClassSize;
    var q := p.(free := [a] + p.free);
    assert PageShape(m', q) by { SameShape(m, m', p, q); }
    forall i | 0 <= i < |q.free| ensures LinkOk(m', q.free, i) {
      if i > 0 {
        assert LinkOk(m, p.free, i - 1);
        SlotInMem(m, p, p.free[i - 1]);
      }
    }
  }

  /** A word that belongs to a block handed out. */
  ghost predicate InLiveSlot(p: Page, a: int)
    requires p.cls < CLASSES
  {
    exists b :: LiveSlot(p, b) && b <= a < b + ClassSize(p.cls)
  }

  /** A page none of whose words changed, except the contents of blocks handed out. */
  ghost predicate SamePage(m: Mem, m': Mem, p: Page)
    requires p.cls < CLASSES
  {
    && |m'| == |m|
    && forall a {:trigger Ld(m', a)} :: InMem(m, a) && p.addr <= a < p.addr + PAGE && !InLiveSlot(p, a) ==> Ld(m', a) == Ld(m, a)
  }

  lemma PageFrame(m: Mem, m': Mem, p: Page)
    requires PageOk(m, p) && SamePage(m, m', p)
    ensures PageOk(m', p) && Ld(m', p.addr) == Ld(m, p.addr)
  {
    hide St, Ld, PageShape, ClassSize, IsSlot, InLiveSlot, LiveSlot;
    SameShape(m, m', p, p);
    HeaderNotLive(m, p, p.addr);
    HeaderNotLive(m, p, p.addr + 4);
    HeaderNotLive(m, p, p.addr + 8);
    forall i | 0 <= i < |p.free| ensures LinkOk(m', p.free, i) {
      assert LinkOk(m, p.free, i);
      SlotInMem(m, p, p.free[i]);
      SlotsNonEmpty(p.cls);
      FreeNotLive(m, p, p.free[i]);
    }
  }

  lemma SlotsNonEmpty(c: nat)
    requires c < CLASSES
    ensures 16 <= ClassSize(c) <= 256
  {
  }

  lemma HeaderNotLive(m: Mem, p: Page, a: int)
    requires PageShape(m, p) && p.addr <= a < p.addr + 16
    ensures !InLiveSlot(p, a)
  {
    forall b | LiveSlot(p, b) ensures !(b <= a < b + ClassSize(p.cls)) { SlotInMem(m, p, b); }
  }

  lemma FreeNotLive(m: Mem, p: Page, a: int)
    requires PageShape(m, p) && IsSlot(p.addr, p.cls, a) && a in p.free
    ensures !InLiveSlot(p, a)
  {
    forall b | LiveSlot(p, b) ensures !(b <= a < b + ClassSize(p.cls)) {
      if b < a { SlotsApart(m, p, b, a); }
    }
  }

  // ---- all pages, in the order they were made

  /** The newest page of class c among the first n, or -1. */
  function LastOf(pages: seq<Page>, n: nat, c: nat): (i: int)
    requires n <= |pages|
    ensures -1 <= i < n
    ensures i >= 0 ==> pages[i].cls == c
    ensures forall j :: i < j < n ==> pages[j].cls != c
  {
    if n == 0 then -1 else if pages[n - 1].cls == c then n - 1 else LastOf(pages, n - 1, c)
  }

  /** The newest page of class c among the first n that has a free block, or -1. */
  function Newest(pages: seq<Page>, n: nat, c: nat): (i: int)
    requires n <= |pages|
    ensures -1 <= i < n
    ensures i >= 0 ==> pages[i].cls == c && pages[i].free != []
    ensures forall j :: i < j < n && pages[j].cls == c ==> pages[j].free == []
  {
    if n == 0 then -1 else if pages[n - 1].cls == c && pages[n - 1].free != [] then n - 1 else Newest(pages, n - 1, c)
  }

  /** The first free block of page i handed out. */
  function Popped(pages: seq<Page>, i: nat): seq<Page>
    requires i < |pages| && pages[i].free != []
  {
    pages[i := pages[i].(free := pages[i].free[1..])]
  }

  function AddrAt(pages: seq<Page>, i: int): int
    requires -1 <= i < |pages|
  {
    if i < 0 then 0 else pages[i].addr
  }

  /** `next_page` of page i: the page of its class made before it. */
  predicate ChainOk(m: Mem, pages: seq<Page>, i: nat)
    requires i < |pages|
  {
    InMem(m, pages[i].addr) && Ld(m, pages[i].addr) == AddrAt(pages, LastOf(pages, i, pages[i].cls))
  }

  /** The heads of the per-class lists and the table of tracked pages. */
  ghost predicate TablesOk(pages: seq<Page>, heads: seq<u32>, tracked: seq<u32>) {
    && |heads| == CLASSES && |tracked| == Min(|pages|, 128)
    && (forall c :: 0 <= c < CLASSES ==> heads[c] == AddrAt(pages, LastOf(pages, |pages|, c)))
    && (forall k :: 0 <= k < |tracked| ==> tracked[k] == pages[k].addr)
  }

  ghost predicate PagesOk(m: Mem, pages: seq<Page>) {
    && (forall i :: 0 <= i < |pages| ==> PageOk(m, pages[i]))
    && (forall i :: 0 <= i < |pages| ==> ChainOk(m, pages, i))
    && (forall i, j :: 0 <= i < j < |pages| ==> pages[i].addr != pages[j].addr)
  }

  lemma {:induction false} LastOfSame(a: seq<Page>, b: seq<Page>, n: nat, c: nat)
    requires n <= |a| && n <= |b| && forall i :: 0 <= i < n ==> a[i].cls == b[i].cls
    ensures LastOf(a, n, c) == LastOf(b, n, c)
  {
    if n > 0 { LastOfSame(a, b, n - 1, c); }
  }

  lemma PagesApart(m: Mem, pages: seq<Page>, i: nat, j: nat)
    requires PagesOk(m, pages) && i < |pages| && j < |pages| && i != j
    ensures pages[i].addr + PAGE <= pages[j].addr || pages[j].addr + PAGE <= pages[i].addr
  {
    hide PageOk;
    PageAligned(m, pages[i]);
    PageAligned(m, pages[j]);
    AlignedApart(pages[i].addr, pages[j].addr);
    assert pages[if i < j then i else j].addr != pages[if i < j then j else i].addr;
  }

  lemma AlignedApart(a: int, b: int)
    requires a % PAGE == 0 && b % PAGE == 0
    ensures a == b || a + PAGE <= b || b + PAGE <= a
  {
  }

  /** One page changed, within its own 4096 bytes. */
  lemma PagesUpdate(m: Mem, m': Mem, pages: seq<Page>, i: nat, q: Page)
    requires PagesOk(m, pages) && i < |pages| && q.addr == pages[i].addr && q.cls == pages[i].cls
    requires RangeOnly(m, m', q.addr, q.addr + PAGE) && PageOk(m', q)
    requires InMem(m, q.addr) && Ld(m', q.addr) == Ld(m, q.addr)
    ensures PagesOk(m', pages[i := q])
  {
    hide PageOk, St, Ld, ClassSize, InLiveSlot;
    var pages' := pages[i := q];
    forall j | 0 <= j < |pages'| ensures PageOk(m', pages'[j]) && ChainOk(m', pages', j) {
      assert ChainOk(m, pages, j);
      LastOfSame(pages, pages', j, pages[j].cls);
      if j != i {
        PagesApart(m, pages, i, j);
        PageKept(m, m', pages[j], q.addr, q.addr + PAGE);
      }
    }
  }

  lemma PageKept(m: Mem, m': Mem, p: Page, lo: int, hi: int)
    requires PageOk(m, p) && RangeOnly(m, m', lo, hi) && (p.addr + PAGE <= lo || hi <= p.addr)
    ensures PageOk(m', p) && InMem(m, p.addr) && Ld(m', p.addr) == Ld(m, p.addr)
  {
    assert SamePage(m, m', p);
    PageFrame(m, m', p);
  }

  /** A range outside every page. */
  lemma PagesFrame(m: Mem, m': Mem, pages: seq<Page>, lo: int, hi: int)
    requires PagesOk(m, pages) && RangeOnly(m, m', lo, hi)
    requires forall i :: 0 <= i < |pages| ==> pages[i].addr + PAGE <= lo || hi <= pages[i].addr
    ensures PagesOk(m', pages)
  {
    hide PageOk, St, Ld, ClassSize;
    forall j | 0 <= j < |pages| ensures PageOk(m', pages[j]) && ChainOk(m', pages, j) {
      assert ChainOk(m, pages, j);
      PageKept(m, m', pages[j], lo, hi);
    }
  }

  /** A new page at the end. */
  lemma PagesGrow(m: Mem, m': Mem, pages: seq<Page>, p: Page)
    requires PagesOk(m, pages) && RangeOnly(m, m', p.addr, p.addr + PAGE) && PageOk(m', p)
    requires forall i :: 0 <= i < |pages| ==> pages[i].addr != p.addr
    requires InMem(m', p.addr) && Ld(m', p.addr) == AddrAt(pages, LastOf(pages, |pages|, p.cls))
    ensures PagesOk(m', pages + [p])
  {
    hide PageOk, St, Ld, ClassSize, WordAt, LastOf;
    var pages' := pages + [p];
    forall j | 0 <= j < |pages'| ensures PageOk(m', pages'[j]) && ChainOk(m', pages', j) {
      LastOfSame(pages, pages', j, pages'[j].cls);
      if j < |pages| {
        assert ChainOk(m, pages, j);
        PageAligned(m, pages[j]);
        PageAligned(m', p);
        AlignedApart(pages[j].addr, p.addr);
        PageKept(m, m', pages[j], p.addr, p.addr + PAGE);
      }
    }
  }

  lemma PageAligned(m: Mem, p: Page)
    requires PageOk(m, p)
    ensures p.addr % PAGE == 0 && p.addr > 0 && p.addr + PAGE <= 4 * |m| && p.addr + PAGE <= WORD && p.cls < CLASSES
  {
  }
}
