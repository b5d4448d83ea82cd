/** kernel/pmm.c: the physical frame allocator, a bitmap scanned next-fit. */
module Pmm {
  import opened Base

  const MAX_PAGES: int := 32768
  const PAGE_SIZE: int := 4096
  const E820_USABLE: int := 1

  /** `1 << b` in a byte. */
  function Mask(b: nat): bv8
    requires b < 8
  {
    match b case 0 => 1 case 1 => 2 case 2 => 4 case 3 => 8 case 4 => 16 case 5 => 32 case 6 => 64 case _ => 128
  }

  /** `x & (1 << b)` */
  predicate HasBit(x: bv8, b: nat)
    requires b < 8
  {
    x & Mask(b) != 0
  }

  function WithBit(x: bv8, b: nat): bv8
    requires b < 8
  {
    x | Mask(b)
  }

  function WithoutBit(x: bv8, b: nat): bv8
    requires b < 8
  {
    x & !Mask(b)
  }

  lemma WithBitHas(x: bv8, i: nat, j: nat)
    requires i < 8 && j < 8
    ensures HasBit(WithBit(x, i), j) <==> i == j || HasBit(x, j)
  {
  }

  lemma WithoutBitHas(x: bv8, i: nat, j: nat)
    requires i < 8 && j < 8
    ensures HasBit(WithoutBit(x, i), j) <==> i != j && HasBit(x, j)
  {
  }

  /** The page of bit b of byte i, and its address. */
  lemma BitPage(i: nat, b: nat)
    requires i < 4096 && b < 8
    ensures var p := i * 8 + b; p / 8 == i && p % 8 == b && p < MAX_PAGES
    ensures var p := i * 8 + b; 0 <= p * PAGE_SIZE < WORD && p * PAGE_SIZE % PAGE_SIZE == 0 && p * PAGE_SIZE / PAGE_SIZE == p
  {
  }

  lemma UsedBit(bm: Bitmap, p: nat, i: nat, b: nat)
    requires i < 4096 && b < 8 && p / 8 == i && p % 8 == b && p < MAX_PAGES
    ensures Used(bm, p) <==> HasBit(bm[i], b)
  {
  }

  lemma FullByte(x: bv8)
    ensures x == 0xFF <==> forall b :: 0 <= b < 8 ==> HasBit(x, b)
  {
    if forall b :: 0 <= b < 8 ==> HasBit(x, b) {
      assert HasBit(x, 0) && HasBit(x, 1) && HasBit(x, 2) && HasBit(x, 3);
      assert HasBit(x, 4) && HasBit(x, 5) && HasBit(x, 6) && HasBit(x, 7);
    }
  }

  type Bitmap = s: seq<bv8> | |s| == 4096 witness seq(4096, i => 0)

  /** Bit b of byte i. */
  predicate Bit(bm: Bitmap, i: nat, b: nat)
    requires i < 4096 && b < 8
  {
    HasBit(bm[i], b)
  }

  /** Page p is in use. */
  predicate Used(bm: Bitmap, p: nat)
    requires p < MAX_PAGES
  {
    Bit(bm, p / 8, p % 8)
  }

  /** The frame at a physical address is marked in use. */
  predicate InUse(bits: Bitmap, addr: int) {
    0 <= addr && addr / PAGE_SIZE < MAX_PAGES && Used(bits, addr / PAGE_SIZE)
  }

  /** No frame has been given back. */
  ghost predicate UsedKept(a: Bitmap, b: Bitmap) {
    forall q :: 0 <= q < MAX_PAGES && Used(a, q) ==> Used(b, q)
  }

  function OrBit(bm: Bitmap, i: nat, b: nat): Bitmap
    requires i < 4096 && b < 8
  {
    bm[i := WithBit(bm[i], b)]
  }

  function AndNotBit(bm: Bitmap, i: nat, b: nat): Bitmap
    requires i < 4096 && b < 8
  {
    bm[i := WithoutBit(bm[i], b)]
  }

  function SetPage(bm: Bitmap, p: nat): (r: Bitmap)
    requires p < MAX_PAGES
  {
    OrBit(bm, p / 8, p % 8)
  }

  function ClearPage(bm: Bitmap, p: nat): (r: Bitmap)
    requires p < MAX_PAGES
  {
    AndNotBit(bm, p / 8, p % 8)
  }

  lemma SameBit(p: nat, q: nat)
    ensures p == q <==> p / 8 == q / 8 && p % 8 == q % 8
  {
  }

  lemma SetAt(bm: Bitmap, i: nat, b: nat, j: nat, c: nat)
    requires i < 4096 && j < 4096 && b < 8 && c < 8
    ensures Bit(OrBit(bm, i, b), j, c) <==> (i == j && b == c) || Bit(bm, j, c)
  {
    hide HasBit, WithBit, WithoutBit;
    if i == j { WithBitHas(bm[i], b, c); }
  }

  lemma SetPageAt(bm: Bitmap, p: nat, q: nat)
    requires p < MAX_PAGES && q < MAX_PAGES
    ensures Used(SetPage(bm, p), q) <==> q == p || Used(bm, q)
  {
    hide Bit, OrBit, AndNotBit;
    SameBit(p, q);
    SetAt(bm, p / 8, p % 8, q / 8, q % 8);
  }

  lemma SetPageUsed(bm: Bitmap, p: nat)
    requires p < MAX_PAGES
    ensures forall q :: 0 <= q < MAX_PAGES ==> (Used(SetPage(bm, p), q) <==> q == p || Used(bm, q))
  {
    hide Used, SetPage;
    forall q | 0 <= q < MAX_PAGES ensures Used(SetPage(bm, p), q) <==> q == p || Used(bm, q) {
      SetPageAt(bm, p, q);
    }
  }

  lemma ClearAt(bm: Bitmap, i: nat, b: nat, j: nat, c: nat)
    requires i < 4096 && j < 4096 && b < 8 && c < 8
    ensures Bit(AndNotBit(bm, i, b), j, c) <==> !(i == j && b == c) && Bit(bm, j, c)
  {
    hide HasBit, WithBit, WithoutBit;
    if i == j { WithoutBitHas(bm[i], b, c); }
  }

  lemma ClearPageAt(bm: Bitmap, p: nat, q: nat)
    requires p < MAX_PAGES && q < MAX_PAGES
    ensures Used(ClearPage(bm, p), q) <==> q != p && Used(bm, q)
  {
    hide Bit, OrBit, AndNotBit;
    SameBit(p, q);
    ClearAt(bm, p / 8, p % 8, q / 8, q % 8);
  }

  lemma ClearPageUsed(bm: Bitmap, p: nat)
    requires p < MAX_PAGES
    ensures forall q :: 0 <= q < MAX_PAGES ==> (Used(ClearPage(bm, p), q) <==> q != p && Used(bm, q))
  {
    hide Used, ClearPage;
    forall q | 0 <= q < MAX_PAGES ensures Used(ClearPage(bm, p), q) <==> q != p && Used(bm, q) {
      ClearPageAt(bm, p, q);
    }
  }

  /** The number of pages in use among the first n. */
  ghost function CountUsed(bm: Bitmap, n: nat): nat
    requires n <= MAX_PAGES
  {
    if n == 0 then 0 else CountUsed(bm, n - 1) + if Used(bm, n - 1) then 1 else 0
  }

  lemma {:induction false} CountChange(a: Bitmap, b: Bitmap, p: nat, n: nat)
    requires p < MAX_PAGES && n <= MAX_PAGES && !Used(a, p) && Used(b, p)
    requires forall q :: 0 <= q < MAX_PAGES && q != p ==> (Used(a, q) <==> Used(b, q))
    ensures CountUsed(b, n) == CountUsed(a, n) + if p < n then 1 else 0
  {
    if n > 0 { CountChange(a, b, p, n - 1); }
  }

  lemma {:induction false} CountAll(bm: Bitmap, n: nat)
    requires n <= MAX_PAGES
    ensures CountUsed(bm, n) == n <==> forall q :: 0 <= q < n ==> Used(bm, q)
    ensures CountUsed(bm, n) <= n
  {
    hide Used;
    if n > 0 { CountAll(bm, n - 1); }
  }

  /** An entry of the BIOS memory map; base and length are 64-bit fields. */
  datatype Region = Region(base: nat, length: nat, kind: u32)

  /** The pages an entry frees: whole pages inside it, in 32-bit arithmetic. */
  function FirstPage(r: Region): nat { (r.base % WORD + PAGE_SIZE - 1) % WORD / PAGE_SIZE }

  function EndPage(r: Region): nat { (r.base % WORD + r.length % WORD) % WORD / PAGE_SIZE }

  predicate Frees(r: Region, p: nat) { r.kind == E820_USABLE && FirstPage(r) <= p < EndPage(r) }

  /** No two of the first n entries free the same page. */
  ghost predicate DisjointTo(rs: seq<Region>, n: nat)
    requires n <= |rs|
  {
    forall i, j, p {:trigger Frees(rs[i], p), Frees(rs[j], p)} ::
      0 <= i < j < n && 0 <= p < MAX_PAGES ==> !(Frees(rs[i], p) && Frees(rs[j], p))
  }

  ghost predicate PagesDisjoint(rs: seq<Region>) { DisjointTo(rs, |rs|) }

  /** Pages below this one hold the first megabyte or the kernel. */
  function KernelPages(kernelEnd: u32): nat { Max(256, (kernelEnd + PAGE_SIZE - 1) % WORD / PAGE_SIZE) }

  /** One of the first n entries frees page p. */
  ghost predicate Covered(rs: seq<Region>, n: nat, p: nat)
    requires n <= |rs|
  {
    exists j :: 0 <= j < n && Frees(rs[j], p)
  }

  lemma NoneDisjoint(rs: seq<Region>)
    ensures DisjointTo(rs, 0)
  {
  }

  lemma NoneCovered(rs: seq<Region>)
    ensures forall p :: !Covered(rs, 0, p)
  {
  }

  lemma CoveredNext(rs: seq<Region>, n: nat, p: nat)
    requires n < |rs|
    ensures Covered(rs, n + 1, p) <==> Covered(rs, n, p) || Frees(rs[n], p)
  {
    hide Frees;
  }

  lemma DisjointNext(rs: seq<Region>, n: nat)
    requires n < |rs|
    ensures DisjointTo(rs, n + 1) <==> DisjointTo(rs, n) && forall p :: 0 <= p < MAX_PAGES && Frees(rs[n], p) ==> !Covered(rs, n, p)
  {
    hide Frees;
    if DisjointTo(rs, n) && forall p :: 0 <= p < MAX_PAGES && Frees(rs[n], p) ==> !Covered(rs, n, p) {
      forall i, j, p | 0 <= i < j < n + 1 && 0 <= p < MAX_PAGES && Frees(rs[j], p) ensures !Frees(rs[i], p) {
        if j == n { assert !Covered(rs, n, p); }
      }
    }
  }

  lemma {:induction false} CountSame(a: Bitmap, b: Bitmap, n: nat)
    requires n <= MAX_PAGES && forall q :: 0 <= q < n ==> (Used(a, q) <==> Used(b, q))
    ensures CountUsed(a, n) == CountUsed(b, n)
  {
    hide Used;
    if n > 0 { CountSame(a, b, n - 1); }
  }

  lemma AllUsed(bm: Bitmap)
    requires forall i :: 0 <= i < 4096 ==> bm[i] == 0xFF
    ensures forall p :: 0 <= p < MAX_PAGES ==> Used(bm, p)
    ensures CountUsed(bm, MAX_PAGES) == MAX_PAGES
  {
    forall p | 0 <= p < MAX_PAGES ensures Used(bm, p) { FullByte(bm[p / 8]); }
    CountAll(bm, MAX_PAGES);
  }

  /** The free page the search takes: the first from `from` on, else the first of all. */
  ghost predicate NextFrame(bm: Bitmap, from: nat, p: nat) {
    p < MAX_PAGES && !Used(bm, p) && forall q :: 0 <= q < MAX_PAGES && (from <= q < p || (p < from && (q < p || from <= q))) ==> Used(bm, q)
  }

  lemma FrameFound(bm: Bitmap, s: nat, i: nat, b: nat)
    requires s <= 4096 && i < 4096 && b < 8 && !HasBit(bm[i], b) && forall c :: 0 <= c < b ==> HasBit(bm[i], c)
    requires forall j :: 0 <= j < 4096 && (s <= j < i || (i < s && (j < i || s <= j))) ==> bm[j] == 0xFF
    ensures NextFrame(bm, s * 8, i * 8 + b)
  {
    hide HasBit;
    var p := i * 8 + b;
    BitPage(i, b);
    UsedBit(bm, p, i, b);
    forall q | 0 <= q < MAX_PAGES && (s * 8 <= q < p || (p < s * 8 && (q < p || s * 8 <= q))) ensures Used(bm, q) {
      UsedBit(bm, q, q / 8, q % 8);
      if q / 8 != i { FullByte(bm[q / 8]); }
    }
  }

  lemma NotUsable(r: Region)
    requires r.kind != E820_USABLE
    ensures forall p :: !Frees(r, p)
  {
  }

  class FrameAllocator {
    const bitmap: array<bv8>
    var totalMemory: u32
    var totalPages: u32
    var usedPages: int
    var lastAllocHint: u32

    ghost predicate Valid()
      reads this
    {
      bitmap.Length == 4096 && lastAllocHint <= MAX_PAGES && totalPages <= MAX_PAGES
    }

    ghost function Bits(): Bitmap
      requires bitmap.Length == 4096
      reads this, bitmap
    {
      bitmap[..]
    }

    /** How far the counter lies below the number of pages marked in the bitmap. */
    ghost function Missing(): int
      requires bitmap.Length == 4096
      reads this, bitmap
    {
      CountUsed(Bits(), MAX_PAGES) - usedPages
    }

    /** The counter is the number of pages marked in the bitmap. */
    ghost predicate Counted()
      requires bitmap.Length == 4096
      reads this, bitmap
    {
      usedPages == CountUsed(Bits(), MAX_PAGES)
    }

    constructor ()
      ensures Valid() && fresh(bitmap) && lastAllocHint == 0 && totalMemory == 0
    {
      bitmap := new bv8[4096](_ => 0);
      totalMemory, totalPages, usedPages, lastAllocHint := 0, 0, 0, 0;
    }

    /** pmm_init: every page in use, except the whole pages of usable regions that lie above
        the first megabyte and above the kernel. */
    method Init(entries: seq<Region>, kernelEnd: u32)
      requires Valid() && totalMemory == 0
      modifies this, bitmap
      ensures Valid() && lastAllocHint == old(lastAllocHint)
      ensures forall p :: 0 <= p < MAX_PAGES ==>
        (Used(Bits(), p) <==> p < KernelPages(kernelEnd) || !Covered(entries, |entries|, p))
      ensures Counted() <==> PagesDisjoint(entries)
    {
      hide HasBit, WithBit, WithoutBit, CountUsed, Frees, FirstPage, EndPage, Used, Covered, DisjointTo;
      assert forall p :: !Covered(entries, 0, p) by { NoneCovered(entries); }
      forall i | 0 <= i < 4096 { bitmap[i] := 0xFF; }
      usedPages := MAX_PAGES;
      AllUsed(Bits());
      assert DisjointTo(entries, 0) by { NoneDisjoint(entries); }
      for i := 0 to |entries|
        invariant Valid() && lastAllocHint == old(lastAllocHint)
        invariant forall p :: 0 <= p < MAX_PAGES ==>
          (Used(Bits(), p) <==> !Covered(entries, i, p))
        invariant Missing() >= 0 && (Missing() == 0 <==> DisjointTo(entries, i))
      {
        var r := entries[i];
        ghost var b0 := Bits();
        var base, length := r.base % WORD, r.length % WORD;
        var end := (base + length) % WORD;
        if end > totalMemory { totalMemory := end; }
        if r.kind != E820_USABLE {
          NotUsable(r);
          forall p ensures Covered(entries, i + 1, p) <==> Covered(entries, i, p) {
            CoveredNext(entries, i, p);
          }
          DisjointNext(entries, i);
          assert Bits() == b0;
          continue;
        }
        FreeRange(r, entries, i);
        DisjointNext(entries, i);
      }
      totalPages := Min(totalMemory / PAGE_SIZE, MAX_PAGES);
      ghost var freed := Bits();
      ReserveRange(0, 256);
      ghost var low := Bits();
      ReserveRange(256, (kernelEnd + PAGE_SIZE - 1) % WORD / PAGE_SIZE);
    }

    /** The page loop of one usable region. */
    method FreeRange(r: Region, ghost entries: seq<Region>, ghost i: nat)
      requires Valid() && r.kind == E820_USABLE && i < |entries| && entries[i] == r
      requires forall p :: 0 <= p < MAX_PAGES ==>
        (Used(Bits(), p) <==> !Covered(entries, i, p))
      modifies this`usedPages, bitmap
      ensures Valid()
      ensures forall p :: 0 <= p < MAX_PAGES ==>
        (Used(Bits(), p) <==> !Covered(entries, i + 1, p))
      ensures Missing() >= old(Missing())
      ensures Missing() == old(Missing()) <==> forall p :: 0 <= p < MAX_PAGES && Frees(r, p) ==> !Covered(entries, i, p)
    {
      hide HasBit, WithBit, WithoutBit, CountUsed, Used;
      var p := FirstPage(r);
      ghost var b0 := Bits();
      while p < EndPage(r) && p < MAX_PAGES
        invariant Valid() && FirstPage(r) <= p && (p <= EndPage(r) || p == FirstPage(r))
        invariant forall q :: 0 <= q < MAX_PAGES ==> (Used(Bits(), q) <==> Used(b0, q) && !(FirstPage(r) <= q < p))
        invariant Missing() >= old(Missing())
        invariant Missing() == old(Missing()) <==> forall q :: FirstPage(r) <= q < p && q < MAX_PAGES ==> Used(b0, q)
      {
        ghost var b := Bits();
        Clear(p);
        ClearPageUsed(b, p);
        if Used(b, p) {
          CountChange(Bits(), b, p, MAX_PAGES);
        } else {
          CountSame(Bits(), b, MAX_PAGES);
        }
        usedPages := usedPages - 1;
        p := p + 1;
      }
      forall q | 0 <= q < MAX_PAGES
        ensures Used(Bits(), q) <==> !Covered(entries, i + 1, q)
      {
        CoveredNext(entries, i, q);
      }
    }

    /** The reservation loops of pmm_init. */
    method ReserveRange(from: nat, to: nat)
      requires Valid()
      modifies this`usedPages, bitmap
      ensures Valid()
      ensures forall q :: 0 <= q < MAX_PAGES ==> (Used(Bits(), q) <==> Used(old(Bits()), q) || from <= q < to)
      ensures Missing() == old(Missing())
    {
      hide HasBit, WithBit, WithoutBit, CountUsed;
      var p := from;
      ghost var b0 := Bits();
      while p < to && p < MAX_PAGES
        invariant Valid() && from <= p && (p <= to || p == from)
        invariant forall q :: 0 <= q < MAX_PAGES ==> (Used(Bits(), q) <==> Used(b0, q) || from <= q < p)
        invariant Missing() == old(Missing())
      {
        var used := Test(p);
        if !used {
          SetPageUsed(Bits(), p);
          Mark(p);
        }
        p := p + 1;
      }
    }

    method Set(page: nat)
      requires Valid()
      modifies bitmap
      ensures page >= MAX_PAGES ==> Bits() == old(Bits())
      ensures page < MAX_PAGES ==> Bits() == SetPage(old(Bits()), page)
    {
      if page >= MAX_PAGES { return; }
      bitmap[page / 8] := WithBit(bitmap[page / 8], page % 8);
    }

    method Clear(page: nat)
      requires Valid()
      modifies bitmap
      ensures page >= MAX_PAGES ==> Bits() == old(Bits())
      ensures page < MAX_PAGES ==> Bits() == ClearPage(old(Bits()), page)
    {
      if page >= MAX_PAGES { return; }
      bitmap[page / 8] := WithoutBit(bitmap[page / 8], page % 8);
    }

    method Test(page: nat) returns (b: bool)
      requires Valid()
      ensures b <==> page >= MAX_PAGES || Used(Bits(), page)
    {
      if page >= MAX_PAGES { return true; }
      return HasBit(bitmap[page / 8], page % 8);
    }

    /** A free page is marked and counted. */
    method Mark(page: nat)
      requires Valid() && page < MAX_PAGES && !Used(Bits(), page)
      modifies this`usedPages, bitmap
      ensures Valid() && Bits() == SetPage(old(Bits()), page) && Bits() != old(Bits()) && usedPages == old(usedPages) + 1
      ensures Missing() == old(Missing())
    {
      hide HasBit, WithBit, WithoutBit, CountUsed, Used;
      ghost var b := Bits();
      Set(page);
      SetPageUsed(b, page);
      CountChange(b, Bits(), page, MAX_PAGES);
      usedPages := usedPages + 1;
    }

    /** pmm_alloc_page: a free page, marked; 0 when no page but page 0 can be given out. */
    method Alloc() returns (addr: u32)
      requires Valid()
      modifies this`usedPages, this`lastAllocHint, bitmap
      ensures Valid()
      ensures addr == 0 && Bits() == old(Bits()) ==>
        usedPages == old(usedPages) && forall q :: 0 <= q < MAX_PAGES ==> Used(Bits(), q)
      ensures Bits() != old(Bits()) ==>
        && addr % PAGE_SIZE == 0 && addr / PAGE_SIZE < MAX_PAGES
        && !Used(old(Bits()), addr / PAGE_SIZE)
        && Bits() == SetPage(old(Bits()), addr / PAGE_SIZE) && usedPages == old(usedPages) + 1
        && NextFrame(old(Bits()), old(lastAllocHint) / 8 * 8, addr / PAGE_SIZE) && lastAllocHint == addr / PAGE_SIZE + 1
      ensures addr != 0 ==> Bits() != old(Bits())
      ensures old(Counted()) ==> Counted()
    {
      hide HasBit, WithBit, SetPage, CountUsed, Used, NextFrame;
      var startByte := lastAllocHint / 8;
      var maxByte := MAX_PAGES / 8;
      ghost var b0: Bitmap := Bits();
      for pass := 0 to 2
        invariant Valid() && Bits() == b0 && usedPages == old(usedPages) && startByte <= 4096
        invariant lastAllocHint == old(lastAllocHint)
        invariant pass >= 1 ==> forall i :: startByte <= i < 4096 ==> b0[i] == 0xFF
        invariant pass >= 2 ==> forall i :: 0 <= i < startByte ==> b0[i] == 0xFF
      {
        var begin := if pass == 0 then startByte else 0;
        var end := if pass == 0 then maxByte else startByte;
        for i := begin to end
          invariant Valid() && Bits() == b0 && usedPages == old(usedPages)
          invariant lastAllocHint == old(lastAllocHint)
          invariant forall j :: begin <= j < i ==> b0[j] == 0xFF
        {
          if bitmap[i] == 0xFF { continue; }
          for bit := 0 to 8
            invariant Valid() && Bits() == b0 && usedPages == old(usedPages)
            invariant lastAllocHint == old(lastAllocHint)
            invariant forall b :: 0 <= b < bit ==> HasBit(b0[i], b)
          {
            if !HasBit(bitmap[i], bit) {
              var page := i * 8 + bit;
              BitPage(i, bit);
              UsedBit(b0, page, i, bit);
              FrameFound(b0, startByte, i, bit);
              Mark(page);
              lastAllocHint := page + 1;
              return page * PAGE_SIZE;
            }
          }
          FullByte(b0[i]);
        }
      }
      AllUsed(b0);
      return 0;
    }

    /** pmm_free_page */
    method Free(addr: u32)
      requires Valid()
      modifies this`usedPages, bitmap
      ensures Valid()
      ensures var p := addr / PAGE_SIZE;
        if p < MAX_PAGES && Used(old(Bits()), p) then Bits() == ClearPage(old(Bits()), p) && usedPages == old(usedPages) - 1
        else Bits() == old(Bits()) && usedPages == old(usedPages)
      ensures old(Counted()) ==> Counted()
    {
      hide HasBit, WithBit, WithoutBit, CountUsed;
      var page := addr / PAGE_SIZE;
      var used := Test(page);
      if page < MAX_PAGES && used {
        ghost var b0 := Bits();
        Clear(page);
        ClearPageUsed(b0, page);
        CountChange(Bits(), b0, page, MAX_PAGES);
        usedPages := usedPages - 1;
      }
    }

    /** pmm_reserve_page */
    method Reserve(addr: u32) returns (ok: bool)
      requires Valid()
      modifies this`usedPages, bitmap
      ensures Valid()
      ensures var p := addr / PAGE_SIZE;
        && (ok <==> p < MAX_PAGES && !Used(old(Bits()), p))
        && (if ok then Bits() == SetPage(old(Bits()), p) && usedPages == old(usedPages) + 1
            else Bits() == old(Bits()) && usedPages == old(usedPages))
      ensures old(Counted()) ==> Counted()
    {
      hide HasBit, WithBit, WithoutBit, CountUsed;
      var page := addr / PAGE_SIZE;
      if page >= MAX_PAGES { return false; }
      var used := Test(page);
      if used { return false; }
      Mark(page);
      return true;
    }

    /** pmm_get_free_pages: the number of clear bits exactly when the memory map covers all
        the pages the bitmap can hold, or nothing is free. */
    method FreePages() returns (n: int)
      requires Valid() && Counted()
      ensures n == MAX_PAGES - CountUsed(Bits(), MAX_PAGES) <==> totalPages == MAX_PAGES || usedPages == MAX_PAGES
    {
      CountAll(Bits(), MAX_PAGES);
      n := if totalPages > usedPages then totalPages - usedPages else 0;
    }
  }
}
