/** Overwriting a file in place: the final contents, the torn contents a crash can
    leave, and exactly when no crash can tear them. Also exactly which paths can be
    read back after they were written. */
module ChaosOverwrite {
  import opened Base
  import opened ChaosLayout
  import opened Drive
  import opened ChaosSpec
  import opened ChaosCrash

  /** The old file after the first k sectors of the new, zero-padded data replaced its own. */
  function Torn(was: seq<byte>, data: seq<byte>, k: nat): (s: seq<byte>)
    ensures |s| == |was|
  {
    seq(|was|, i requires 0 <= i < |was| => if i < SECTOR * k then PadAt(data, i) else was[i])
  }

  function PadAt(data: seq<byte>, i: nat): byte { if i < |data| then data[i] else 0 }

  /** Every sector write that can still change a byte of the old file. */
  predicate SameThere(was: seq<byte>, data: seq<byte>, i: nat) {
    i < |was| && i < SECTOR * SectorsOf(|data|) ==> was[i] == PadAt(data, i)
  }

  ghost predicate OnlySectorDiffers(was: seq<byte>, data: seq<byte>, s: nat)
    requires |was| == |data|
  {
    forall i :: 0 <= i < |was| && i / SECTOR != s ==> was[i] == data[i]
  }

  /** What a caller can check before an overwrite: if the size stays, at most one sector
      changes; if the size changes, the bytes of the old file do not. */
  ghost predicate TearFree(was: seq<byte>, data: seq<byte>) {
    if |was| == |data| then exists s: nat :: OnlySectorDiffers(was, data, s)
    else forall i :: 0 <= i < |was| ==> SameThere(was, data, i)
  }

  lemma TornBytes(img: Image, start: nat, n: nat, data: seq<byte>, k: nat)
    requires k <= SectorsOf(|data|) && start + SectorsOf(n) <= |img|
    ensures BytesAt(CrashAt(img, DataWrites(start, data), k), start, n) == Torn(BytesAt(img, start, n), data, k)
  {
    var r := CrashAt(img, DataWrites(start, data), k);
    CutData(img, start, data, k);
    forall i | 0 <= i < n ensures ByteAt(r, start, i) == Torn(BytesAt(img, start, n), data, k)[i] {
      var j := start + i / SECTOR;
      assert i / SECTOR < SectorsOf(n) && j < |img|;
      assert r[j] == if start <= j < start + k then SectorSlice(data, j - start) else img[j];
      assert SECTOR * (i / SECTOR) + i % SECTOR == i;
    }
  }

  /** Overwriting keeps the invariant. */
  lemma OverwriteSound(img: Image, sb: Superblock, t: Table, path: seq<byte>, data: seq<byte>)
    requires Sound(img, sb, t) && |data| + BLOCK <= WORD && InPlace(t, path, |data|)
    ensures var p := OverwritePlan(sb, t, path, data); Sound(Replay(img, p.writes), p.sb, p.table)
  {
    hide SyncWrites, TableOf, SuperblockOf, CStr, DataWrites, BlocksFor;
    var p := OverwritePlan(sb, t, path, data);
    var i := Find(t, path);
    NewEntryOkSize(|data|);
    LiveEntryOk(sb, t, i);
    OverwriteTableOk(sb, t, i, |data|);
    ReplayAppend(img, DataWrites(DataSector(sb, t[i]), data), SyncWrites(p.sb, p.table));
    SyncSound(img, Replay(img, DataWrites(DataSector(sb, t[i]), data)), p.sb, p.table);
  }

  lemma OverwriteTableOk(sb: Superblock, t: Table, i: nat, size: u32)
    requires TableOk(sb, t) && i < 256 && Live(t[i]) && size <= BLOCK * t[i].blockCount
    ensures TableOk(sb, t[i := t[i].(size := size)])
  {
    hide CStr;
    var e := t[i].(size := size);
    LiveEntryOk(sb, t, i);
    assert Name(e) == Name(t[i]);
    InsertOk(sb, t, sb, i, e);
  }

  /** The sectors of other live files are not touched by an overwrite. */
  lemma OthersApart(img: Image, sb: Superblock, t: Table, i: nat, j: nat, size: nat)
    requires Geometry(sb, |img|) && TableOk(sb, t) && i < 256 && j < 256 && i != j && Live(t[i]) && Live(t[j])
    requires size + BLOCK <= WORD && BlocksFor(size) <= t[i].blockCount
    ensures var a, b := DataSector(sb, t[i]), DataSector(sb, t[j]);
      a + SectorsOf(size) <= b || b + SectorsOf(t[j].size) <= a
  {
    ExtentInRange(img, sb, t, i);
    ExtentInRange(img, sb, t, j);
    OverwriteInRange(img, sb, t, i, size);
    assert Disjoint(t[if i < j then i else j], t[if i < j then j else i]);
    assert SectorsOf(size) <= 8 * t[i].blockCount;
  }

  /** What a crash after k sector writes of an overwrite shows: torn contents of the old
      size until the table sector is written, then exactly the new data. Other paths are
      not affected. */
  lemma CrashOverwrite(img: Image, sb: Superblock, t: Table, path: seq<byte>, data: seq<byte>, k: nat, q: seq<byte>)
    requires Sound(img, sb, t) && |data| + BLOCK <= WORD && InPlace(t, path, |data|)
    requires k <= |OverwritePlan(sb, t, path, data).writes|
    ensures var p := OverwritePlan(sb, t, path, data);
      var r := CrashAt(img, p.writes, k);
      var was := FileOf(img, sb, t[p.slot]);
      && (q != path ==> View(r, q) == View(img, q))
      && View(r, path) == Some(was.(data :=
           if k < CommitPoint(p.slot, |data|) then Torn(was.data, data, Min(k, SectorsOf(|data|))) else data))
  {
    hide SyncWrites, TableOf, SuperblockOf, CStr, DataWrites, BlocksFor, BytesAt, CrashAt, Replay, TableOk, Torn, Mixed;
    var p := OverwritePlan(sb, t, path, data);
    var i, d := p.slot, SectorsOf(|data|);
    var start := DataSector(sb, t[i]);
    var a := DataWrites(start, data);
    var r := CrashAt(img, p.writes, k);
    ExtentInRange(img, sb, t, i);
    OverwriteInRange(img, sb, t, i, |data|);
    DataRunLength(start, data);
    CutAppend(img, a, SyncWrites(p.sb, p.table), k);
    var c := Min(k, d);
    var mid := CrashAt(img, a, c);
    CutData(img, start, data, c);
    SameMeta(mid, img);
    TornBytes(img, start, t[i].size, data, c);
    if k <= d {
      OverwriteLookups(img, sb, t, path, mid, t, |data|, q);
    } else {
      WholeData(img, start, data);
      WholeCut(img, a);
      CutSync(mid, p.sb, p.table, k - d);
      MixedOneSlot(t, i, t[i].(size := |data|), 4 * (k - d - 1));
      SameBytes(mid, r, start, t[i].size);
      SameBytes(mid, r, start, |data|);
      OverwriteLookups(img, sb, t, path, r, TableOf(r), |data|, q);
    }
  }

  lemma WholeCut(img: Image, ws: seq<SectorWrite>)
    ensures CrashAt(img, ws, |ws|) == Replay(img, ws)
  {
    assert ws[..|ws|] == ws;
  }

  /** Lookups on an image that differs from a sound one only inside the extent of `path`,
      with the size of its entry old or new. */
  lemma OverwriteLookups(img: Image, sb: Superblock, t: Table, path: seq<byte>, r: Image, u: Table, size: nat, q: seq<byte>)
    requires Sound(img, sb, t) && size + BLOCK <= WORD && InPlace(t, path, size) && |r| == |img|
    requires var i := Find(t, path); u == t || u == t[i := t[i].(size := size)]
    requires var s := DataSector(sb, t[Find(t, path)]);
      forall j :: sb.dataStart <= j < |img| && !(s <= j < s + SectorsOf(size)) ==> r[j] == img[j]
    ensures q != path ==> Lookup(r, sb, u, q) == Lookup(img, sb, t, q)
    ensures Lookup(r, sb, u, path) == Some(FileOf(r, sb, u[Find(t, path)]))
  {
    hide CStr, TableOf, SuperblockOf, BlocksFor, BytesAt;
    var i := Find(t, path);
    forall p ensures Find(u, p) == Find(t, p) {
      assert Name(t[i].(size := size)) == Name(t[i]);
      FindCongruent(t, u, p);
    }
    if q != path && Find(t, q) >= 0 {
      var j := Find(t, q);
      ExtentInRange(img, sb, t, j);
      OthersApart(img, sb, t, i, j, size);
      SameBytes(img, r, DataSector(sb, t[j]), t[j].size);
    }
  }

  /** No torn state is anything but the old or the new contents. */
  ghost predicate NeverTorn(was: seq<byte>, data: seq<byte>) {
    forall k :: 0 <= k <= SectorsOf(|data|) ==> Torn(was, data, k) == was || Torn(was, data, k) == data
  }

  lemma TearFreeIsEnough(was: seq<byte>, data: seq<byte>)
    requires TearFree(was, data)
    ensures NeverTorn(was, data)
  {
    forall k | 0 <= k <= SectorsOf(|data|)
      ensures Torn(was, data, k) == was || Torn(was, data, k) == data
    {
      if |was| == |data| {
        var s: nat :| OnlySectorDiffers(was, data, s);
        if k <= s {
          forall i | 0 <= i < |was| ensures Torn(was, data, k)[i] == was[i] {
            if i < SECTOR * k { assert i / SECTOR < k; }
          }
          assert Torn(was, data, k) == was;
        } else {
          forall i | 0 <= i < |was| ensures Torn(was, data, k)[i] == data[i] {
            if i >= SECTOR * k { assert i / SECTOR >= k; }
          }
          assert Torn(was, data, k) == data;
        }
      } else {
        forall i | 0 <= i < |was| ensures Torn(was, data, k)[i] == was[i] {
          assert SameThere(was, data, i);
        }
        assert Torn(was, data, k) == was;
      }
    }
  }

  /** Two sectors that change: after the first of them, the file is neither old nor new. */
  lemma TwoTornSectors(was: seq<byte>, data: seq<byte>, a: nat, b: nat)
    requires |was| == |data| && a < |was| && b < |was| && a / SECTOR < b / SECTOR
    requires was[a] != data[a] && was[b] != data[b]
    ensures a / SECTOR + 1 <= SectorsOf(|data|)
    ensures Torn(was, data, a / SECTOR + 1) != was && Torn(was, data, a / SECTOR + 1) != data
  {
    var x := Torn(was, data, a / SECTOR + 1);
    assert a < SECTOR * (a / SECTOR + 1) <= b;
    assert x[a] == data[a] && x[b] == was[b];
  }

  lemma TearFreeIsNeeded(was: seq<byte>, data: seq<byte>)
    requires NeverTorn(was, data)
    ensures TearFree(was, data)
  {
    if |was| == |data| {
      if i0: nat :| i0 < |was| && was[i0] != data[i0] {
        var s := FirstTornSector(was, data, i0);
        var a :| 0 <= a < |was| && a / SECTOR == s && was[a] != data[a];
        forall i | 0 <= i < |was| && i / SECTOR != s ensures was[i] == data[i] {
          if was[i] != data[i] {
            TwoTornSectors(was, data, a, i);
            assert false;
          }
        }
        assert OnlySectorDiffers(was, data, s);
      } else {
        assert OnlySectorDiffers(was, data, 0);
      }
    } else {
      var k := SectorsOf(|data|);
      assert Torn(was, data, k) == was;
      forall i | 0 <= i < |was| ensures SameThere(was, data, i) {
        assert Torn(was, data, k)[i] == was[i];
      }
    }
  }

  /** The lowest sector in which the two differ. */
  lemma FirstTornSector(was: seq<byte>, data: seq<byte>, i0: nat) returns (s: nat)
    requires |was| == |data| && i0 < |was| && was[i0] != data[i0]
    ensures exists a :: 0 <= a < |was| && a / SECTOR == s && was[a] != data[a]
    ensures forall i :: 0 <= i < |was| && was[i] != data[i] ==> i / SECTOR >= s
  {
    var a := i0;
    while exists b :: 0 <= b < a && was[b] != data[b]
      invariant 0 <= a < |was| && was[a] != data[a]
      decreases a
    {
      var b :| 0 <= b < a && was[b] != data[b];
      a := b;
    }
    s := a / SECTOR;
  }

  /** Exactly when an overwrite in place is crash-atomic for its path: at every cut the
      path shows its old or its new contents if and only if the change is tear-free. */
  lemma OverwriteAtomicIff(img: Image, sb: Superblock, t: Table, path: seq<byte>, data: seq<byte>)
    requires Sound(img, sb, t) && |data| + BLOCK <= WORD && InPlace(t, path, |data|)
    ensures var p := OverwritePlan(sb, t, path, data);
      var was := FileOf(img, sb, t[p.slot]);
      (forall k :: 0 <= k <= |p.writes| ==>
         var v := View(CrashAt(img, p.writes, k), path); v == Some(was) || v == Some(was.(data := data)))
      <==> TearFree(was.data, data)
  {
    hide SyncWrites, TableOf, SuperblockOf, CStr, DataWrites, BlocksFor, BytesAt, CrashAt, Replay, TableOk, Torn, TearFree, View;
    var p := OverwritePlan(sb, t, path, data);
    var was := FileOf(img, sb, t[p.slot]);
    var d := SectorsOf(|data|);
    DataRunLength(DataSector(sb, t[p.slot]), data);
    forall k | 0 <= k <= |p.writes|
      ensures View(CrashAt(img, p.writes, k), path) == Some(was.(data :=
        if k < CommitPoint(p.slot, |data|) then Torn(was.data, data, Min(k, d)) else data))
    {
      CrashOverwrite(img, sb, t, path, data, k, path);
    }
    if TearFree(was.data, data) {
      TearFreeIsEnough(was.data, data);
    }
    if forall k :: 0 <= k <= |p.writes| ==>
         var v := View(CrashAt(img, p.writes, k), path); v == Some(was) || v == Some(was.(data := data)) {
      forall k | 0 <= k <= d ensures Torn(was.data, data, k) == was.data || Torn(was.data, data, k) == data {
        assert View(CrashAt(img, p.writes, k), path) == Some(was.(data := Torn(was.data, data, k)));
      }
      TearFreeIsNeeded(was.data, data);
    }
  }

  /** Exactly which paths read back: after a write that succeeds, the path shows the data
      if and only if it has 1 to 107 bytes. */
  lemma ReadBackIff(img: Image, sb: Superblock, t: Table, path: seq<byte>, data: seq<byte>)
    requires Sound(img, sb, t) && CString(path) && Room(sb, t, path, |data|)
    requires WritePlan(sb, t, path, data).Commit?
    ensures var r := Replay(img, WritePlan(sb, t, path, data).writes);
      (View(r, path).Some? && View(r, path).value.data == data) <==> 1 <= |path| <= 107
  {
    hide SyncWrites, DataWrites, BytesAt, CStr, TableOf, SuperblockOf, FileName, Replay;
    var p := WritePlan(sb, t, path, data);
    WholeCut(img, p.writes);
    ShortNames(sb, t, path);
    if InPlace(t, path, |data|) {
      MatchedLength(t[Find(t, path)], path);
      DataRunLength(DataSector(sb, t[p.slot]), data);
      CrashOverwrite(img, sb, t, path, data, |p.writes|, path);
    } else {
      var e := NewEntry(path, |data|, sb.nextFree, BlocksFor(|data|), 0);
      DataRunLength(DataSector(sb, e), data);
      if 1 <= |path| <= 107 {
        CrashPlace(img, sb, t, path, data, |p.writes|, path);
      } else {
        var a := DataWrites(DataSector(sb, e), data);
        ReplayAppend(img, a, SyncWrites(p.sb, p.table));
        WholeSync(Replay(img, a), p.sb, p.table);
        UnreadableName(sb, t, path, data);
      }
    }
  }

  lemma MatchedLength(e: Entry, path: seq<byte>)
    requires Matches(e, path)
    ensures |path| > 0
  {
  }

  lemma UnreadableName(sb: Superblock, t: Table, path: seq<byte>, data: seq<byte>)
    requires TableOk(sb, t) && CString(path) && |data| < WORD && !(1 <= |path| <= 107)
    requires PlacePlan(sb, t, path, data).Commit?
    ensures Find(PlacePlan(sb, t, path, data).table, path) < 0
  {
    hide SyncWrites, DataWrites, BlocksFor, DataSector, FileName, CStr;
    var p := PlacePlan(sb, t, path, data);
    NameOfFileName(path);
    ShortNames(sb, t, path);
    if |path| == 0 {
      forall i | 0 <= i < 256 ensures !Matches(p.table[i], path) {
        if Matches(p.table[i], path) { MatchedLength(p.table[i], path); assert false; }
      }
    }
  }
}
