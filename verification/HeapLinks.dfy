/** Header words in memory: what splitting and joining blocks writes, and that it keeps
    the links of the list and touches nothing but headers. */
module HeapLinks {
  import opened Base
  import opened HeapList

  /** An address inside the header of a block of the list. */
  ghost predicate InHeader(L: Blocks, a: int) {
    exists i :: 0 <= i < |L| && L[i].addr <= a < L[i].addr + HEADER
  }

  /** Only header words of the list may differ. */
  ghost predicate OnlyHeaders(m: Mem, m': Mem, L: Blocks) {
    |m'| == |m| && forall a {:trigger Ld(m', a)} :: InMem(m, a) && !InHeader(L, a) ==> Ld(m', a) == Ld(m, a)
  }

  /** Bytes that belong to a block, or lie outside the heap, are in no header. */
  lemma NotHeader(L: Blocks, base: int, end: int, a: int)
    requires Tiles(L, base, end)
    requires a < base || a >= end || exists j :: 0 <= j < |L| && L[j].addr + HEADER <= a < EndOf(L[j])
    ensures !InHeader(L, a)
  {
    hide BlockOk;
    if i :| 0 <= i < |L| && L[i].addr <= a < L[i].addr + HEADER {
      InTile(L, base, end, i);
      var j :| 0 <= j < |L| && L[j].addr + HEADER <= a < EndOf(L[j]);
      if i < j { Ordered(L, base, end, i, j); }
      if j < i { Ordered(L, base, end, j, i); }
      assert false;
    }
  }

  lemma InTile(L: Blocks, base: int, end: int, i: nat)
    requires Tiles(L, base, end) && i < |L|
    ensures base <= L[i].addr && EndOf(L[i]) <= end && L[i].addr + HEADER <= EndOf(L[i])
  {
    TileEnds(L, base, end);
    BlockAt(L, base, end, i);
    if i > 0 { Ordered(L, base, end, 0, i); BlockAt(L, base, end, 0); }
    if i < |L| - 1 { Ordered(L, base, end, i, |L| - 1); BlockAt(L, base, end, |L| - 1); }
  }

  /** Two headers share no word. */
  lemma Apart(L: Blocks, base: int, end: int, i: nat, j: nat)
    requires Tiles(L, base, end) && i < |L| && j < |L| && i != j
    ensures L[i].addr + HEADER <= L[j].addr || L[j].addr + HEADER <= L[i].addr
  {
    InTile(L, base, end, i);
    InTile(L, base, end, j);
    if i < j { Ordered(L, base, end, i, j); } else { Ordered(L, base, end, j, i); }
  }

  /** Memory is the same except at the given words. */
  ghost predicate DiffersAt(m: Mem, m': Mem, cells: set<int>) {
    |m'| == |m| && forall a {:trigger Ld(m', a)} :: InMem(m, a) && a !in cells ==> Ld(m', a) == Ld(m, a)
  }

  lemma KeepHeader(m: Mem, m': Mem, cells: set<int>, b: Block, next: int, prev: int)
    requires DiffersAt(m, m', cells) && HeaderAt(m, b, next, prev)
    requires forall c :: c in cells ==> c < b.addr || c >= b.addr + HEADER
    ensures HeaderAt(m', b, next, prev)
  {
    hide St;
    assert b.addr !in cells && b.addr + 4 !in cells && b.addr + 8 !in cells && b.addr + 12 !in cells;
  }

  // ---- the flag of one block

  /** `block->is_free = f` for block k. */
  lemma FlagLinked(m: Mem, m': Mem, L: Blocks, base: int, end: int, k: nat, f: bool)
    requires Tiles(L, base, end) && Linked(m, L) && k < |L|
    requires InMem(m, L[k].addr + 4) && DiffersAt(m, m', {L[k].addr + 4}) && Flag(Ld(m', L[k].addr + 4)) == f
    ensures Linked(m', L[k := L[k].(free := f)]) && OnlyHeaders(m, m', L)
  {
    hide Tiles, BlockOk, St, Ld, Flag;
    var L' := L[k := L[k].(free := f)];
    forall i | 0 <= i < |L'| ensures HeaderOk(m', L', i) {
      assert HeaderOk(m, L, i);
      if i != k {
        Apart(L, base, end, i, k);
        KeepHeader(m, m', {L[k].addr + 4}, L[i], NextAddr(L, i), PrevAddr(L, i));
      }
    }
    forall a | InMem(m, a) && !InHeader(L, a) ensures Ld(m', a) == Ld(m, a) {
      assert a != L[k].addr + 4;
    }
  }

  // ---- splitting block k

  /** Address of the header a split of block k writes. */
  function SplitAddr(L: Blocks, k: nat, size: int): int
    requires k < |L|
  {
    L[k].addr + HEADER + size
  }

  /** The words a split writes: the new header, the link back of the next block, and the
      size and link of block k. */
  ghost function SplitCells(L: Blocks, k: nat, size: int): set<int>
    requires k < |L|
  {
    var a, n := L[k].addr, SplitAddr(L, k, size);
    {n, n + 4, n + 8, n + 12, a, a + 8} + if k + 1 < |L| then {L[k + 1].addr + 12} else {}
  }

  lemma SplitLinked(m: Mem, m': Mem, L: Blocks, base: int, end: int, k: nat, size: int)
    requires Tiles(L, base, end) && Linked(m, L) && k < |L|
    requires L[k].free && Splits(L[k], size) && size >= 0 && size % 16 == 0
    requires DiffersAt(m, m', SplitCells(L, k, size))
    requires var a, n := L[k].addr, SplitAddr(L, k, size);
      && HeaderAt(m', Block(a, size, true), n, PrevAddr(L, k))
      && HeaderAt(m', Block(n, L[k].size - size - HEADER, true), NextAddr(L, k), a)
      && (k + 1 < |L| ==> InMem(m', L[k + 1].addr + 12) && Ld(m', L[k + 1].addr + 12) == n)
    ensures var T := Take(L, k, size);
      Linked(m', T[k := T[k].(free := true)]) && OnlyHeaders(m, m', T)
  {
    hide Tiles, BlockOk, St, Ld, Flag, Take, HeaderAt;
    var T := Take(L, k, size);
    TakeShape(L, k, size);
    TakeTiles(L, base, end, k, size);
    var n := SplitAddr(L, k, size);
    var F := T[k := T[k].(free := true)];
    forall i | 0 <= i < |F| ensures HeaderOk(m', F, i) {
      if i == k || i == k + 1 {
      } else {
        var j := if i < k then i else i - 1;
        assert HeaderOk(m, L, j);
        Apart(T, base, end, i, k);
        Apart(T, base, end, i, k + 1);
        if i == k + 2 {
          RelinkPrev(m, m', SplitCells(L, k, size), L[j], NextAddr(L, j), L[k].addr, n);
        } else {
          if k + 2 < |T| { Apart(T, base, end, i, k + 2); }
          KeepHeader(m, m', SplitCells(L, k, size), L[j], NextAddr(L, j), PrevAddr(L, j));
        }
      }
    }
    forall a | InMem(m, a) && !InHeader(T, a) ensures Ld(m', a) == Ld(m, a) {
      assert T[k].addr == L[k].addr && T[k + 1].addr == n;
      if k + 1 < |L| { assert T[k + 2] == L[k + 1]; }
      assert a !in SplitCells(L, k, size);
    }
  }

  /** A header in which only the link back changed. */
  lemma RelinkPrev(m: Mem, m': Mem, cells: set<int>, b: Block, next: int, prev: int, prev': int)
    requires DiffersAt(m, m', cells) && HeaderAt(m, b, next, prev)
    requires forall c :: c in cells ==> c < b.addr || c >= b.addr + 12
    requires Ld(m', b.addr + 12) == prev'
    ensures HeaderAt(m', b, next, prev')
  {
    hide St;
    assert b.addr !in cells && b.addr + 4 !in cells && b.addr + 8 !in cells;
  }

  // ---- joining blocks k and k + 1

  ghost function JoinCells(L: Blocks, k: nat): set<int>
    requires k + 1 < |L|
  {
    {L[k].addr, L[k].addr + 8} + if k + 2 < |L| then {L[k + 2].addr + 12} else {}
  }

  lemma JoinLinked(m: Mem, m': Mem, L: Blocks, base: int, end: int, k: nat)
    requires Tiles(L, base, end) && Linked(m, L) && k + 1 < |L|
    requires DiffersAt(m, m', JoinCells(L, k))
    requires HeaderAt(m', L[k].(size := L[k].size + HEADER + L[k + 1].size), NextAddr(L, k + 1), PrevAddr(L, k))
    requires k + 2 < |L| ==> InMem(m', L[k + 2].addr + 12) && Ld(m', L[k + 2].addr + 12) == L[k].addr
    ensures Linked(m', Join(L, k)) && OnlyHeaders(m, m', L)
  {
    hide Tiles, BlockOk, St, Ld, Flag, Join, HeaderAt;
    var J := Join(L, k);
    JoinShape(L, k);
    forall i | 0 <= i < |J| ensures HeaderOk(m', J, i) {
      if i != k {
        var j := if i < k then i else i + 1;
        assert HeaderOk(m, L, j);
        Apart(L, base, end, j, k);
        if j == k + 2 {
          RelinkPrev(m, m', JoinCells(L, k), L[j], NextAddr(L, j), L[k + 1].addr, L[k].addr);
        } else {
          if k + 2 < |L| { Apart(L, base, end, j, k + 2); }
          KeepHeader(m, m', JoinCells(L, k), L[j], NextAddr(L, j), PrevAddr(L, j));
        }
      }
    }
    forall a | InMem(m, a) && !InHeader(L, a) ensures Ld(m', a) == Ld(m, a) {
      assert a !in JoinCells(L, k);
    }
  }
}
