/** The block list of the kernel heap: headers in memory, linked both ways, that tile
    the heap exactly. The list is kept as a value next to the memory that holds it. */
module HeapList {
  import opened Base

  /** Physical memory as 32-bit words; a byte address is four times the word index. */
  type Mem = seq<u32>

  /** A word address within n words of memory. */
  predicate WordAt(n: nat, a: int) { 0 <= a && a % 4 == 0 && a + 4 <= 4 * n }

  predicate InMem(m: Mem, a: int) { WordAt(|m|, a) }

  function Ld(m: Mem, a: int): u32
    requires InMem(m, a)
  {
    m[a / 4]
  }

  function St(m: Mem, a: int, v: u32): (r: Mem)
    requires InMem(m, a)
    ensures |r| == |m|
    ensures forall b {:trigger Ld(r, b)} :: InMem(m, b) ==> Ld(r, b) == if b == a then v else Ld(m, b)
  {
    m[a / 4 := v]
  }

  /** Memory may differ only in the given range. */
  ghost predicate RangeOnly(m: Mem, m': Mem, lo: int, hi: int) {
    |m'| == |m| && forall a {:trigger Ld(m', a)} :: InMem(m, a) && !(lo <= a < hi) ==> Ld(m', a) == Ld(m, a)
  }

  /** The physical memory that everything in the kernel shares. */
  class Ram {
    var mem: Mem

    constructor (m: Mem)
      ensures mem == m
    {
      mem := m;
    }
  }

  const HEADER: int := 16

  /** A byte-sized bool stored in the low byte of a word; the padding keeps its value. */
  predicate Flag(w: u32) { w % 256 != 0 }

  function SetFlag(w: u32, b: bool): (r: u32)
    ensures Flag(r) == b
  {
    w - w % 256 + if b then 1 else 0
  }

  datatype Block = Block(addr: int, size: int, free: bool)

  type Blocks = seq<Block>

  function EndOf(b: Block): int { b.addr + HEADER + b.size }

  /** The blocks lie one after the other from `base` to `end`, without a gap. */
  ghost predicate Tiles(L: Blocks, base: int, end: int) {
    && |L| > 0 && L[0].addr == base && EndOf(L[|L| - 1]) == end
    && (forall i :: 0 <= i < |L| ==> BlockOk(L[i]))
    && (forall i, j :: 0 <= i < j < |L| ==> EndOf(L[i]) <= L[j].addr && (j == i + 1 ==> EndOf(L[i]) == L[j].addr))
  }

  predicate BlockOk(b: Block) { b.addr > 0 && b.addr % 16 == 0 && b.size >= 0 && b.size % 4 == 0 }

  /** Coalescing leaves no two neighbours free. */
  ghost predicate Coalesced(L: Blocks) {
    forall i, j :: 0 <= i < j < |L| && j == i + 1 ==> !(L[i].free && L[j].free)
  }

  function NextAddr(L: Blocks, i: nat): int { if i + 1 < |L| then L[i + 1].addr else 0 }

  function PrevAddr(L: Blocks, i: nat): int { if 0 < i <= |L| then L[i - 1].addr else 0 }

  predicate HeaderAt(m: Mem, b: Block, next: int, prev: int) {
    && InMem(m, b.addr) && InMem(m, b.addr + 12)
    && Ld(m, b.addr) == b.size && Flag(Ld(m, b.addr + 4)) == b.free
    && Ld(m, b.addr + 8) == next && Ld(m, b.addr + 12) == prev
  }

  predicate HeaderOk(m: Mem, L: Blocks, i: nat)
    requires i < |L|
  {
    HeaderAt(m, L[i], NextAddr(L, i), PrevAddr(L, i))
  }

  /** The headers in memory are those of the list, linked both ways. */
  ghost predicate Linked(m: Mem, L: Blocks) {
    forall i :: 0 <= i < |L| ==> HeaderOk(m, L, i)
  }

  // ---- what allocation and release do to the list

  predicate Fits(b: Block, size: int) { b.free && b.size >= size }

  /** The first of the blocks from i on and before n that fits, or -1. */
  function FirstFit(L: Blocks, i: nat, n: nat, size: int): (k: int)
    requires i <= n <= |L|
    ensures -1 <= k < n && (k >= 0 ==> i <= k && Fits(L[k], size))
    ensures forall j :: i <= j < (if k < 0 then n else k) ==> !Fits(L[j], size)
    decreases n - i
  {
    if i == n then -1 else if Fits(L[i], size) then i else FirstFit(L, i + 1, n, size)
  }

  /** The block next-fit takes: the first that fits from the hint on, else the first from the start. */
  function NextFit(L: Blocks, hint: nat, size: int): (k: int)
    requires hint <= |L|
    ensures -1 <= k < |L| && (k >= 0 ==> Fits(L[k], size))
    ensures k < 0 ==> forall i :: 0 <= i < |L| ==> !Fits(L[i], size)
  {
    var k := FirstFit(L, hint, |L|, size);
    if k >= 0 then k else FirstFit(L, 0, hint, size)
  }

  /** Block k taken for `size` bytes; what is left over stays a block when it can hold
      a header and 16 bytes. */
  function Take(L: Blocks, k: nat, size: int): Blocks
    requires k < |L|
  {
    var b := L[k];
    if b.size >= size + HEADER + 16 then
      L[..k] + [Block(b.addr, size, false), Block(b.addr + HEADER + size, b.size - size - HEADER, true)] + L[k + 1..]
    else
      L[k := b.(free := false)]
  }

  /** Blocks k and k + 1 joined. */
  function Join(L: Blocks, k: nat): Blocks
    requires k + 1 < |L|
  {
    L[..k] + [L[k].(size := L[k].size + HEADER + L[k + 1].size)] + L[k + 2..]
  }

  function JoinNext(L: Blocks, k: nat): Blocks
    requires k < |L|
  {
    if k + 1 < |L| && L[k + 1].free then Join(L, k) else L
  }

  /** Block k released and joined with its free neighbours. */
  function Release(L: Blocks, k: nat): Blocks
    requires k < |L|
  {
    var L1 := JoinNext(L[k := L[k].(free := true)], k);
    if k > 0 && L1[k - 1].free then Join(L1, k - 1) else L1
  }

  // ---- accounting

  function UsedBytes(L: Blocks): int {
    if L == [] then 0 else UsedBytes(L[..|L| - 1]) + if L[|L| - 1].free then 0 else L[|L| - 1].size + HEADER
  }

  function FreeBytes(L: Blocks): int {
    if L == [] then 0 else FreeBytes(L[..|L| - 1]) + if L[|L| - 1].free then L[|L| - 1].size else 0
  }

  function FreeCount(L: Blocks): nat {
    if L == [] then 0 else FreeCount(L[..|L| - 1]) + if L[|L| - 1].free then 1 else 0
  }

  /** Nothing is lost: used bytes, free bytes and the headers of free blocks make up the heap. */
  lemma {:induction false} Conservation(L: Blocks, base: int, end: int)
    requires Tiles(L, base, end)
    ensures UsedBytes(L) + FreeBytes(L) + HEADER * FreeCount(L) == end - base
  {
    var n := |L| - 1;
    if n > 0 {
      var L0 := L[..n];
      assert forall i :: 0 <= i < n ==> L0[i] == L[i];
      Conservation(L0, base, L[n].addr);
    } else {
      assert L[..n] == [];
    }
  }

  // ---- the list stays a tiling

  lemma Ordered(L: Blocks, base: int, end: int, i: int, j: int)
    requires Tiles(L, base, end) && 0 <= i < j < |L|
    ensures EndOf(L[i]) <= L[j].addr && (j == i + 1 ==> EndOf(L[i]) == L[j].addr)
  {
  }

  lemma BlockAt(L: Blocks, base: int, end: int, i: int)
    requires Tiles(L, base, end) && 0 <= i < |L|
    ensures BlockOk(L[i])
  {
  }

  predicate Splits(b: Block, size: int) { b.size >= size + HEADER + 16 }

  lemma TakeShape(L: Blocks, k: nat, size: int)
    requires k < |L|
    ensures var T := Take(L, k, size);
      if Splits(L[k], size) then
        && |T| == |L| + 1 && T[k] == Block(L[k].addr, size, false)
        && T[k + 1] == Block(L[k].addr + HEADER + size, L[k].size - size - HEADER, true)
        && (forall i :: 0 <= i < k ==> T[i] == L[i]) && (forall i :: k + 1 < i < |T| ==> T[i] == L[i - 1])
      else
        |T| == |L| && T[k] == L[k].(free := false) && forall i :: 0 <= i < |L| && i != k ==> T[i] == L[i]
  {
    if Splits(L[k], size) {
      SplicedTwo(L, k, Block(L[k].addr, size, false), Block(L[k].addr + HEADER + size, L[k].size - size - HEADER, true));
    }
  }

  lemma SplicedTwo(L: Blocks, k: nat, a: Block, b: Block)
    requires k < |L|
    ensures var T := L[..k] + [a, b] + L[k + 1..];
      && |T| == |L| + 1 && T[k] == a && T[k + 1] == b
      && (forall i :: 0 <= i < k ==> T[i] == L[i]) && (forall i :: k + 1 < i < |T| ==> T[i] == L[i - 1])
  {
  }

  lemma SplitBlocksOk(b: Block, size: int)
    requires BlockOk(b) && Splits(b, size) && size >= 0 && size % 16 == 0
    ensures BlockOk(Block(b.addr, size, false))
    ensures BlockOk(Block(b.addr + HEADER + size, b.size - size - HEADER, true))
  {
    var p, q, r := b.addr / 16, size / 16, b.size / 4;
    assert b.addr == 16 * p && size == 16 * q && b.size == 4 * r;
    assert b.addr + HEADER + size == 16 * (p + 1 + q) && b.size - size - HEADER == 4 * (r - 4 * q - 4) && size == 4 * (4 * q);
  }

  lemma TakeTiles(L: Blocks, base: int, end: int, k: nat, size: int)
    requires Tiles(L, base, end) && k < |L| && Fits(L[k], size) && size >= 0 && size % 16 == 0
    ensures Tiles(Take(L, k, size), base, end)
  {
    hide Take, BlockOk, Tiles;
    var T := Take(L, k, size);
    TakeShape(L, k, size);
    TileEnds(L, base, end);
    var d := if Splits(L[k], size) then 1 else 0;
    BlockAt(L, base, end, k);
    if d == 1 { SplitBlocksOk(L[k], size); } else { SameBlockOk(L[k], false); }
    forall i | 0 <= i < |T| ensures BlockOk(T[i]) {
      if i != k && i != k + d { BlockAt(L, base, end, if i < k then i else i - d); }
    }
    forall i, j | 0 <= i < j < |T| ensures EndOf(T[i]) <= T[j].addr && (j == i + 1 ==> EndOf(T[i]) == T[j].addr) {
      var i0, j0 := if i <= k then i else i - d, if j <= k then j else j - d;
      if i0 < j0 { Ordered(L, base, end, i0, j0); }
    }
    MakeTiles(T, base, end);
  }

  lemma TileEnds(L: Blocks, base: int, end: int)
    requires Tiles(L, base, end)
    ensures |L| > 0 && L[0].addr == base && EndOf(L[|L| - 1]) == end
  {
  }

  lemma SameBlockOk(b: Block, free: bool)
    requires BlockOk(b)
    ensures BlockOk(b.(free := free))
  {
  }

  lemma MakeTiles(L: Blocks, base: int, end: int)
    requires |L| > 0 && L[0].addr == base && EndOf(L[|L| - 1]) == end
    requires forall i :: 0 <= i < |L| ==> BlockOk(L[i])
    requires forall i, j :: 0 <= i < j < |L| ==> EndOf(L[i]) <= L[j].addr && (j == i + 1 ==> EndOf(L[i]) == L[j].addr)
    ensures Tiles(L, base, end)
  {
  }

  lemma TakeCoalesced(L: Blocks, k: nat, size: int)
    requires Coalesced(L) && k < |L| && L[k].free
    ensures Coalesced(Take(L, k, size))
  {
    hide Take, Coalesced;
    var T := Take(L, k, size);
    TakeShape(L, k, size);
    var d := if Splits(L[k], size) then 1 else 0;
    forall i, j | 0 <= i < j < |T| && j == i + 1 ensures !(T[i].free && T[j].free) {
      var i0, j0 := if i <= k then i else i - d, if j <= k then j else j - d;
      if i0 < j0 { NotBothFree(L, i0); }
    }
    MakeCoalesced(T);
  }

  lemma NotBothFree(L: Blocks, i: nat)
    requires Coalesced(L) && i + 1 < |L|
    ensures !(L[i].free && L[i + 1].free)
  {
  }

  lemma MakeCoalesced(L: Blocks)
    requires forall i, j :: 0 <= i < j < |L| && j == i + 1 ==> !(L[i].free && L[j].free)
    ensures Coalesced(L)
  {
  }

  lemma JoinShape(L: Blocks, k: nat)
    requires k + 1 < |L|
    ensures var J := Join(L, k);
      && |J| == |L| - 1 && J[k] == L[k].(size := L[k].size + HEADER + L[k + 1].size)
      && (forall i :: 0 <= i < k ==> J[i] == L[i]) && (forall i :: k < i < |J| ==> J[i] == L[i + 1])
  {
  }

  lemma JoinTiles(L: Blocks, base: int, end: int, k: nat)
    requires Tiles(L, base, end) && k + 1 < |L|
    ensures Tiles(Join(L, k), base, end)
  {
    hide Join, Tiles;
    var J := Join(L, k);
    JoinShape(L, k);
    TileEnds(L, base, end);
    Ordered(L, base, end, k, k + 1);
    forall i | 0 <= i < |J| ensures BlockOk(J[i]) {
      BlockAt(L, base, end, if i <= k then i else i + 1);
      if i == k { BlockAt(L, base, end, k + 1); }
    }
    forall i, j | 0 <= i < j < |J| ensures EndOf(J[i]) <= J[j].addr && (j == i + 1 ==> EndOf(J[i]) == J[j].addr) {
      Ordered(L, base, end, if i < k then i else i + 1, if j <= k then j else j + 1);
    }
    MakeTiles(J, base, end);
  }

  lemma FreeTiles(L: Blocks, base: int, end: int, k: nat)
    requires Tiles(L, base, end) && k < |L|
    ensures Tiles(L[k := L[k].(free := true)], base, end)
  {
  }

  lemma ReleaseTiles(L: Blocks, base: int, end: int, k: nat)
    requires Tiles(L, base, end) && k < |L|
    ensures Tiles(Release(L, k), base, end)
  {
    hide Tiles;
    var L0 := L[k := L[k].(free := true)];
    FreeTiles(L, base, end, k);
    if k + 1 < |L| && L0[k + 1].free { JoinTiles(L0, base, end, k); }
    var L1 := JoinNext(L0, k);
    if k > 0 && L1[k - 1].free { JoinTiles(L1, base, end, k - 1); }
  }

  /** After joining forward, only the released block can have a free neighbour, the one before it. */
  lemma JoinNextShape(L: Blocks, k: nat)
    requires Coalesced(L) && k < |L|
    ensures var L1 := JoinNext(L[k := L[k].(free := true)], k);
      && k < |L1| && L1[k].free && (k + 1 < |L1| ==> !L1[k + 1].free)
      && (forall i :: 0 <= i < k ==> L1[i] == L[i])
      && (forall i :: k < i < |L1| - 1 ==> !(L1[i].free && L1[i + 1].free))
  {
    hide Join, Coalesced;
    var L0 := L[k := L[k].(free := true)];
    var L1 := JoinNext(L0, k);
    if k + 1 < |L| && L[k + 1].free {
      JoinShape(L0, k);
      if k + 2 < |L| { NotBothFree(L, k + 1); }
      forall i | k < i < |L1| - 1 ensures !(L1[i].free && L1[i + 1].free) { NotBothFree(L, i + 1); }
    } else {
      forall i | k < i < |L1| - 1 ensures !(L1[i].free && L1[i + 1].free) { NotBothFree(L, i); }
    }
  }

  lemma ReleaseCoalesced(L: Blocks, k: nat)
    requires Coalesced(L) && k < |L|
    ensures Coalesced(Release(L, k))
  {
    hide Join, JoinNext, Coalesced;
    var L1 := JoinNext(L[k := L[k].(free := true)], k);
    JoinNextShape(L, k);
    var R := Release(L, k);
    if k > 0 && L1[k - 1].free {
      JoinShape(L1, k - 1);
      forall i, j | 0 <= i < j < |R| && j == i + 1 ensures !(R[i].free && R[j].free) {
        if j < k { NotBothFree(L, i); }
      }
    } else {
      forall i, j | 0 <= i < j < |R| && j == i + 1 ensures !(R[i].free && R[j].free) {
        if j < k { NotBothFree(L, i); }
      }
    }
    MakeCoalesced(R);
  }

  // ---- the last block is never empty

  ghost predicate LastOk(L: Blocks) { |L| > 0 && L[|L| - 1].size > 0 }

  lemma TakeLast(L: Blocks, k: nat, size: int)
    requires LastOk(L) && k < |L|
    ensures LastOk(Take(L, k, size))
  {
    TakeShape(L, k, size);
  }

  lemma ReleaseLast(L: Blocks, base: int, end: int, k: nat)
    requires LastOk(L) && k < |L| && Tiles(L, base, end)
    ensures LastOk(Release(L, k))
  {
    hide Tiles, Join;
    var L0 := L[k := L[k].(free := true)];
    FreeTiles(L, base, end, k);
    if k + 1 < |L0| && L0[k + 1].free {
      JoinShape(L0, k);
      JoinLast(L0, base, end, k);
      JoinTiles(L0, base, end, k);
    }
    var L1 := JoinNext(L0, k);
    if k > 0 && L1[k - 1].free { JoinLast(L1, base, end, k - 1); }
  }

  lemma JoinLast(L: Blocks, base: int, end: int, k: nat)
    requires LastOk(L) && k + 1 < |L| && Tiles(L, base, end)
    ensures LastOk(Join(L, k))
  {
    BlockAt(L, base, end, k);
    JoinShape(L, k);
  }
}
