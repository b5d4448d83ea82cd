/** What each ChaosFS operation does to the volume a lookup shows, at every point a
    crash can leave it: the sector writes of one operation are cut after any k of
    them, and the image is mounted again. */
module ChaosCrash {
  import opened Base
  import opened ChaosLayout
  import opened Drive
  import opened ChaosSpec

  /** The file a mount of the image and a read of `path` give. */
  ghost function View(img: Image, path: seq<byte>): Option<File>
    requires |img| >= TABLE_START + TABLE_SECTORS
  {
    Lookup(img, SuperblockOf(img), TableOf(img), path)
  }

  /** The image left when a crash cuts the writes after the first k. */
  ghost function CrashAt(img: Image, ws: seq<SectorWrite>, k: nat): (r: Image)
    requires k <= |ws|
    ensures |r| == |img|
  {
    Replay(img, ws[..k])
  }

  // ---- sectors

  lemma CutRun(img: Image, base: nat, ws: seq<SectorWrite>, k: nat)
    requires IsRun(base, ws) && k <= |ws|
    ensures forall j :: 0 <= j < |img| ==>
      CrashAt(img, ws, k)[j] == if base <= j < base + k then ws[j - base].data else img[j]
  {
    forall j | 0 <= j < |img|
      ensures CrashAt(img, ws, k)[j] == if base <= j < base + k then ws[j - base].data else img[j]
    {
      ReplayRun(img, base, ws[..k], j);
    }
  }

  lemma CutAppend(img: Image, a: seq<SectorWrite>, b: seq<SectorWrite>, k: nat)
    requires k <= |a + b|
    ensures k <= |a| ==> CrashAt(img, a + b, k) == CrashAt(img, a, k)
    ensures k > |a| ==> CrashAt(img, a + b, k) == CrashAt(Replay(img, a), b, k - |a|)
  {
    if k <= |a| {
      assert (a + b)[..k] == a[..k];
    } else {
      assert (a + b)[..k] == a + b[..k - |a|];
      ReplayAppend(img, a, b[..k - |a|]);
    }
  }

  /** The first m slots already new, the others still old. */
  ghost function Mixed(t': Table, t: Table, m: nat): Table {
    seq(256, i requires 0 <= i < 256 => if i < m then t'[i] else t[i])
  }

  /** A cut inside chaosfs_sync: the superblock first, then four table slots a sector. */
  lemma CutSync(img: Image, sb: Superblock, t: Table, k: nat)
    requires |img| >= TABLE_START + TABLE_SECTORS && 1 <= k <= 1 + TABLE_SECTORS
    ensures var r := CrashAt(img, SyncWrites(sb, t), k);
      && SuperblockOf(r) == sb && TableOf(r) == Mixed(t, TableOf(img), 4 * (k - 1))
      && forall j :: 0 <= j < |img| && !(START_SECTOR <= j < TABLE_START + TABLE_SECTORS) ==> r[j] == img[j]
  {
    hide EncodeSuperblock, DecodeSuperblock, EncodeFour, SlotOf, Le32, FromLe32;
    var head := [SectorWrite(START_SECTOR, EncodeSuperblock(sb))];
    var r := CrashAt(img, SyncWrites(sb, t), k);
    CutAppend(img, head, TableWrites(t), k);
    CutRun(img, START_SECTOR, head, 1);
    var mid := Replay(img, head);
    assert head[..1] == head;
    assert r == CrashAt(mid, TableWrites(t), k - 1) by {
      if k == 1 { assert TableWrites(t)[..0] == []; }
    }
    CutRun(mid, TABLE_START, TableWrites(t), k - 1);
    SuperblockRoundTrip(sb);
    forall i | 0 <= i < 256
      ensures EntryOf(r, i) == Mixed(t, TableOf(img), 4 * (k - 1))[i]
    {
      assert 4 * (i / 4) + i % 4 == i;
      if i / 4 < k - 1 {
        assert r[TABLE_START + i / 4] == EncodeFour(t, i / 4);
        SlotOfEncodeFour(t, i / 4, i % 4);
      } else {
        assert r[TABLE_START + i / 4] == img[TABLE_START + i / 4];
      }
    }
  }

  /** The whole of chaosfs_sync. */
  lemma WholeSync(img: Image, sb: Superblock, t: Table)
    requires |img| >= TABLE_START + TABLE_SECTORS
    ensures var r := Replay(img, SyncWrites(sb, t));
      && SuperblockOf(r) == sb && TableOf(r) == t
      && forall j :: 0 <= j < |img| && !(START_SECTOR <= j < TABLE_START + TABLE_SECTORS) ==> r[j] == img[j]
  {
    var ws := SyncWrites(sb, t);
    assert ws[..|ws|] == ws;
    CutSync(img, sb, t, |ws|);
  }

  /** A cut inside the data loop: whole sectors of the data, nothing else. */
  lemma CutData(img: Image, start: nat, data: seq<byte>, k: nat)
    requires k <= SectorsOf(|data|)
    ensures forall j :: 0 <= j < |img| ==>
      CrashAt(img, DataWrites(start, data), k)[j] == if start <= j < start + k then SectorSlice(data, j - start) else img[j]
  {
    CutRun(img, start, DataWrites(start, data), k);
  }

  lemma WholeData(img: Image, start: nat, data: seq<byte>)
    requires start + SectorsOf(|data|) <= |img|
    ensures var r := Replay(img, DataWrites(start, data));
      && BytesAt(r, start, |data|) == data
      && forall j :: 0 <= j < |img| && !(start <= j < start + SectorsOf(|data|)) ==> r[j] == img[j]
  {
    hide DataWrites, Replay, SectorSlice, ByteAt;
    var ws := DataWrites(start, data);
    var r := Replay(img, ws);
    assert ws[..|ws|] == ws;
    DataRunLength(start, data);
    CutData(img, start, data, |ws|);
    forall i | 0 <= i < |data| ensures ByteAt(r, start, i) == data[i] {
      SectorOfByte(|data|, i);
      assert CrashAt(img, ws, |ws|)[start + i / SECTOR] == SectorSlice(data, i / SECTOR);
      DataByte(r, start, data, i);
    }
  }

  lemma SectorOfByte(n: nat, i: nat)
    requires i < n
    ensures i / SECTOR < SectorsOf(n)
  {
  }

  lemma DataByte(r: Image, start: nat, data: seq<byte>, i: nat)
    requires i < |data| && start + i / SECTOR < |r| && r[start + i / SECTOR] == SectorSlice(data, i / SECTOR)
    ensures ByteAt(r, start, i) == data[i]
  {
    assert SECTOR * (i / SECTOR) + i % SECTOR == i;
  }

  /** Metadata that lies in unchanged sectors is unchanged. */
  lemma SameMeta(a: Image, b: Image)
    requires |a| == |b| >= TABLE_START + TABLE_SECTORS
    requires forall j :: START_SECTOR <= j < TABLE_START + TABLE_SECTORS ==> a[j] == b[j]
    ensures SuperblockOf(a) == SuperblockOf(b) && TableOf(a) == TableOf(b)
  {
    hide DecodeSuperblock, SlotOf;
    forall i | 0 <= i < 256 ensures TableOf(a)[i] == TableOf(b)[i] {
      assert START_SECTOR <= TABLE_START + i / 4 < TABLE_START + TABLE_SECTORS;
    }
  }

  lemma SameBytes(a: Image, b: Image, start: nat, n: nat)
    requires |a| == |b| && start + SectorsOf(n) <= |a|
    requires forall j :: start <= j < start + SectorsOf(n) ==> a[j] == b[j]
    ensures BytesAt(a, start, n) == BytesAt(b, start, n)
  {
    forall i | 0 <= i < n ensures ByteAt(a, start, i) == ByteAt(b, start, i) {
      assert start <= start + i / SECTOR < start + SectorsOf(n);
    }
  }

  // ---- lookups

  lemma FindCongruent(t: Table, u: Table, q: seq<byte>)
    requires forall i :: 0 <= i < 256 ==> Matches(t[i], q) == Matches(u[i], q)
    ensures Find(t, q) == Find(u, q)
  {
  }

  lemma FindIs(t: Table, q: seq<byte>, j: nat)
    requires j < 256 && Matches(t[j], q)
    requires forall i :: 0 <= i < j ==> !Matches(t[i], q)
    ensures Find(t, q) == j
  {
  }

  /** The superblock fields a lookup depends on. */
  ghost predicate SameLayout(a: Superblock, b: Superblock) {
    a.dataStart == b.dataStart && a.magic == b.magic && a.version == b.version && a.maxFiles == b.maxFiles
  }

  /** A lookup is unchanged while the tables agree on the path and the image agrees
      below the allocation mark. */
  lemma SameLookup(img: Image, sb: Superblock, t: Table, img': Image, sb': Superblock, t': Table, q: seq<byte>)
    requires Geometry(sb, |img|) && TableOk(sb, t) && |img'| == |img| && SameLayout(sb, sb')
    requires forall i :: 0 <= i < 256 ==> Matches(t[i], q) == Matches(t'[i], q)
    requires forall i :: 0 <= i < 256 && Matches(t[i], q) ==> t[i] == t'[i]
    requires forall j :: sb.dataStart <= j < sb.dataStart + 8 * sb.nextFree ==> img[j] == img'[j]
    ensures Lookup(img, sb, t, q) == Lookup(img', sb', t', q)
  {
    FindCongruent(t, t', q);
    var i := Find(t, q);
    if i >= 0 {
      ExtentInRange(img, sb, t, i);
      SameBytes(img, img', DataSector(sb, t[i]), t[i].size);
    }
  }

  // ---- create and grow

  /** Number of sector writes after which a new file is committed: its data, the
      superblock, and the table sector of its slot. */
  function CommitPoint(slot: nat, size: nat): nat { SectorsOf(size) + 1 + slot / 4 + 1 }

  /** The file name of a new entry is the path it was made for. */
  lemma NewEntryMatches(path: seq<byte>, size: u32, start: u32, count: u32, flags: byte, q: seq<byte>)
    requires CString(path) && |path| <= 107 && !Deleted(flags)
    ensures Matches(NewEntry(path, size, start, count, flags), q) <==> q == path && |path| > 0
  {
    NameOfFileName(path);
    assert path[..|path|] == path;
  }

  /** A table in which slot i0 (if any) of the path was erased and slot j <= i0 now holds
      the path's new entry, seen while only the first m slots are new. */
  lemma MixedFind(t: Table, path: seq<byte>, i0: int, j: nat, e: Entry, m: nat, q: seq<byte>)
    requires -1 <= i0 < 256 && j < 256 && (i0 >= 0 ==> j <= i0) && (j == i0 || !Live(t[j]))
    requires forall i :: 0 <= i < 256 ==> (Matches(t[i], path) <==> i == i0)
    requires forall p :: Matches(e, p) <==> p == path
    ensures var u := Mixed(Erase(t, i0)[j := e], t, m);
      && (q != path || m <= j ==> forall i :: 0 <= i < 256 ==> Matches(u[i], q) == Matches(t[i], q))
      && (q != path || m <= j ==> forall i :: 0 <= i < 256 && Matches(t[i], q) ==> u[i] == t[i])
      && (m > j ==> Find(u, path) == j)
  {
    hide CStr;
    var u := Mixed(Erase(t, i0)[j := e], t, m);
    assert i0 >= 0 ==> Name(t[i0]) == path;
    if m > j {
      assert u[j] == e && Matches(e, path);
      FindIs(u, path, j);
    }
  }

  /** How the table of PlacePlan differs from the old one. */
  lemma PlaceTable(sb: Superblock, t: Table, path: seq<byte>, data: seq<byte>, m: nat, q: seq<byte>)
    requires TableOk(sb, t) && CString(path) && 1 <= |path| <= 107 && |data| < WORD
    requires PlacePlan(sb, t, path, data).Commit?
    ensures var p := PlacePlan(sb, t, path, data);
      var u := Mixed(p.table, t, m);
      && (q != path || m <= p.slot ==> forall i :: 0 <= i < 256 ==> Matches(u[i], q) == Matches(t[i], q))
      && (q != path || m <= p.slot ==> forall i :: 0 <= i < 256 && Matches(t[i], q) ==> u[i] == t[i])
      && (m > p.slot ==> Find(u, path) == p.slot)
  {
    hide CStr, FileName, SyncWrites, DataWrites, BlocksFor, EntryOk, DataSector;
    var p := PlacePlan(sb, t, path, data);
    var i0 := Find(t, path);
    var e := NewEntry(path, |data|, sb.nextFree, BlocksFor(|data|), 0);
    forall q ensures Matches(e, q) <==> q == path {
      NewEntryMatches(path, |data|, sb.nextFree, BlocksFor(|data|), 0, q);
    }
    OnlyMatch(sb, t, path);
    assert i0 >= 0 ==> !Live(Erase(t, i0)[i0]);
    MixedFind(t, path, i0, p.slot, e, m, q);
  }

  lemma OnlyMatch(sb: Superblock, t: Table, path: seq<byte>)
    requires TableOk(sb, t)
    ensures forall i :: 0 <= i < 256 ==> (Matches(t[i], path) <==> i == Find(t, path))
  {
    hide CStr, EntryOk, Disjoint;
    var f := Find(t, path);
    forall i | 0 <= i < 256 && Matches(t[i], path) ensures i == f {
      if 0 <= f < i { assert false; }
    }
  }

  /** Crash atomicity of create and grow. Whatever number k of sector writes reaches the
      drive, the path shows exactly its old contents before the commit point and exactly
      the new ones from it on, and no other path changes. */
  lemma CrashPlace(img: Image, sb: Superblock, t: Table, path: seq<byte>, data: seq<byte>, k: nat, q: seq<byte>)
    requires Sound(img, sb, t) && CString(path) && 1 <= |path| <= 107
    requires Room(sb, t, path, |data|) && !InPlace(t, path, |data|)
    requires PlacePlan(sb, t, path, data).Commit? && k <= |PlacePlan(sb, t, path, data).writes|
    ensures var p := PlacePlan(sb, t, path, data);
      var r := CrashAt(img, p.writes, k);
      && SameLayout(SuperblockOf(r), sb)
      && (q != path ==> View(r, q) == View(img, q))
      && View(r, path) == if k < CommitPoint(p.slot, |data|) then View(img, path) else Some(File(0, data, BlocksFor(|data|)))
  {
    hide SyncWrites, DataWrites, Replay, BytesAt, CrashAt, Find, FindFree, FileName, CStr, View, Sound, TableOk, BlocksFor;
    if k <= SectorsOf(|data|) {
      CrashInData(img, sb, t, path, data, k, q);
      CrashInData(img, sb, t, path, data, k, path);
    } else {
      CrashInSync(img, sb, t, path, data, k, q);
    }
  }

  /** The metadata of an image cut inside a create or grow. */
  lemma CrashMeta(img: Image, sb: Superblock, t: Table, path: seq<byte>, data: seq<byte>, k: nat)
    requires Sound(img, sb, t) && Room(sb, t, path, |data|) && !InPlace(t, path, |data|)
    requires PlacePlan(sb, t, path, data).Commit? && k <= |PlacePlan(sb, t, path, data).writes|
    ensures var p := PlacePlan(sb, t, path, data); var d := SectorsOf(|data|); var r := CrashAt(img, p.writes, k);
      && (forall j :: sb.dataStart <= j < sb.dataStart + 8 * sb.nextFree ==> r[j] == img[j])
      && if k <= d then SuperblockOf(r) == sb && TableOf(r) == t
         else SuperblockOf(r) == p.sb && TableOf(r) == Mixed(p.table, t, 4 * (k - d - 1))
              && BytesAt(r, sb.dataStart + 8 * sb.nextFree, |data|) == data
  {
    hide EncodeSuperblock, DecodeSuperblock, EncodeFour, SlotOf, Le32, FromLe32, EntryOf, TableOf, SuperblockOf,
      DataWrites, SyncWrites, Replay, BytesAt, CrashAt, Find, FileName, CStr, Mixed, TableOk;
    var p, d := PlacePlan(sb, t, path, data), SectorsOf(|data|);
    var start := sb.dataStart + 8 * sb.nextFree;
    NewEntrySector(sb, |img|, path, |data|);
    NewExtentInRange(sb, |img|, |data|);
    DataRunLength(start, data);
    CutAppend(img, DataWrites(start, data), SyncWrites(p.sb, p.table), k);
    if k <= d {
      CutData(img, start, data, k);
      SameMeta(CrashAt(img, p.writes, k), img);
    } else {
      var mid := Replay(img, DataWrites(start, data));
      WholeData(img, start, data);
      SameMeta(mid, img);
      CutSync(mid, p.sb, p.table, k - d);
      SameBytes(mid, CrashAt(img, p.writes, k), start, |data|);
    }
  }

  lemma CrashInData(img: Image, sb: Superblock, t: Table, path: seq<byte>, data: seq<byte>, k: nat, q: seq<byte>)
    requires Sound(img, sb, t) && Room(sb, t, path, |data|) && !InPlace(t, path, |data|)
    requires PlacePlan(sb, t, path, data).Commit? && k <= SectorsOf(|data|) && k <= |PlacePlan(sb, t, path, data).writes|
    ensures var r := CrashAt(img, PlacePlan(sb, t, path, data).writes, k);
      SameLayout(SuperblockOf(r), sb) && View(r, q) == View(img, q)
  {
    hide TableOf, SuperblockOf, DataWrites, SyncWrites, Replay, BytesAt, CrashAt, Find, FileName, CStr, Lookup, PlacePlan, TableOk;
    CrashMeta(img, sb, t, path, data, k);
    SameLookup(img, sb, t, CrashAt(img, PlacePlan(sb, t, path, data).writes, k), sb, t, q);
  }

  lemma CrashInSync(img: Image, sb: Superblock, t: Table, path: seq<byte>, data: seq<byte>, k: nat, q: seq<byte>)
    requires Sound(img, sb, t) && CString(path) && 1 <= |path| <= 107
    requires Room(sb, t, path, |data|) && !InPlace(t, path, |data|) && PlacePlan(sb, t, path, data).Commit?
    requires SectorsOf(|data|) < k <= |PlacePlan(sb, t, path, data).writes|
    ensures var p := PlacePlan(sb, t, path, data); var r := CrashAt(img, p.writes, k);
      && SameLayout(SuperblockOf(r), sb) && (q != path ==> View(r, q) == View(img, q))
      && View(r, path) == if k < CommitPoint(p.slot, |data|) then View(img, path) else Some(File(0, data, BlocksFor(|data|)))
  {
    hide TableOf, SuperblockOf, DataWrites, SyncWrites, Replay, BytesAt, CrashAt, Find, FileName, CStr, Lookup, Mixed, TableOk, DataSector;
    var p := PlacePlan(sb, t, path, data);
    CrashMeta(img, sb, t, path, data, k);
    PlaceMixed(img, sb, t, path, data, CrashAt(img, p.writes, k), 4 * (k - SectorsOf(|data|) - 1), q);
  }

  lemma NewEntrySector(sb: Superblock, n: nat, path: seq<byte>, size: u32)
    requires Geometry(sb, n)
    ensures forall sb': Superblock, c: u32 {:trigger DataSector(sb', NewEntry(path, size, sb.nextFree, c, 0))} ::
      sb'.dataStart == sb.dataStart ==>
      DataSector(sb', NewEntry(path, size, sb.nextFree, c, 0)) == sb.dataStart + 8 * sb.nextFree
  {
    assert sb.nextFree * BLOCK < WORD && sb.nextFree * BLOCK / SECTOR == 8 * sb.nextFree;
    assert sb.dataStart + 8 * sb.nextFree < WORD;
  }

  /** The lookups of an image that holds the data, the new superblock and the first m new slots. */
  lemma PlaceMixed(img: Image, sb: Superblock, t: Table, path: seq<byte>, data: seq<byte>, r: Image, m: nat, q: seq<byte>)
    requires Sound(img, sb, t) && CString(path) && 1 <= |path| <= 107 && |r| == |img|
    requires Room(sb, t, path, |data|) && PlacePlan(sb, t, path, data).Commit?
    requires forall j :: sb.dataStart <= j < sb.dataStart + 8 * sb.nextFree ==> img[j] == r[j]
    ensures var p := PlacePlan(sb, t, path, data);
      var u := Mixed(p.table, t, m);
      && (q != path ==> Lookup(r, p.sb, u, q) == Lookup(img, sb, t, q))
      && Lookup(r, p.sb, u, path) ==
         if m <= p.slot then Lookup(img, sb, t, path)
         else Some(File(0, BytesAt(r, sb.dataStart + 8 * sb.nextFree, |data|), BlocksFor(|data|)))
  {
    hide TableOf, SuperblockOf, DataWrites, SyncWrites, BytesAt, Find, FileName, CStr, BlocksFor, Matches, TableOk, DataSector, Erase;
    var p := PlacePlan(sb, t, path, data);
    var u := Mixed(p.table, t, m);
    NewEntrySector(sb, |img|, path, |data|);
    assert DataSector(p.sb, p.table[p.slot]) == sb.dataStart + 8 * sb.nextFree;
    PlaceTable(sb, t, path, data, m, q);
    PlaceTable(sb, t, path, data, m, path);
    if q != path { SameLookup(img, sb, t, r, p.sb, u, q); }
    if m <= p.slot { SameLookup(img, sb, t, r, p.sb, u, path); }
  }

  lemma DataRunLength(start: nat, data: seq<byte>)
    ensures |DataWrites(start, data)| == SectorsOf(|data|)
  {
  }

  lemma NoWrites(img: Image, ws: seq<SectorWrite>)
    ensures CrashAt(img, ws, 0) == img
  {
  }

  // ---- delete and mkdir: one slot changes

  lemma MixedOneSlot(t: Table, j: nat, e: Entry, m: nat)
    requires j < 256
    ensures Mixed(t[j := e], t, m) == if m <= j then t else t[j := e]
  {
  }

  /** A sync that changes one slot is atomic: a crash leaves the old table or the new one. */
  lemma CrashOneSlot(img: Image, sb: Superblock, t: Table, sb': Superblock, j: nat, e: Entry, k: nat, q: seq<byte>)
    requires Sound(img, sb, t) && SameLayout(sb, sb') && j < 256 && k <= 1 + TABLE_SECTORS
    requires EntryOk(sb, e)
    ensures var r := CrashAt(img, SyncWrites(sb', t[j := e]), k);
      View(r, q) == if k < 1 + j / 4 + 1 then View(img, q) else Lookup(img, sb', t[j := e], q)
  {
    hide EncodeSuperblock, DecodeSuperblock, EncodeFour, SlotOf, Le32, FromLe32, EntryOf, TableOf, SuperblockOf,
      SyncWrites, BytesAt, FileName, CStr, Mixed, CrashAt, Replay, Find;
    var t' := t[j := e];
    var r := CrashAt(img, SyncWrites(sb', t'), k);
    if k == 0 {
      NoWrites(img, SyncWrites(sb', t'));
    } else {
      CutSync(img, sb', t', k);
      MixedOneSlot(t, j, e, 4 * (k - 1));
      var u := TableOf(r);
      var i := Find(u, q);
      if i >= 0 {
        assert EntryOk(sb, t[i]);
        assert DataSector(sb, u[i]) == sb.dataStart + 8 * u[i].startBlock;
        SameBytes(img, r, DataSector(sb, u[i]), u[i].size);
      }
    }
  }

  /** Crash atomicity of delete: the path shows its old contents or nothing. */
  lemma CrashDelete(img: Image, sb: Superblock, t: Table, path: seq<byte>, k: nat, q: seq<byte>)
    requires Sound(img, sb, t) && DeletePlan(sb, t, path).Commit? && k <= 1 + TABLE_SECTORS
    ensures var p := DeletePlan(sb, t, path);
      var r := CrashAt(img, p.writes, k);
      && (q != path ==> View(r, q) == View(img, q))
      && View(r, path) == if k < 1 + p.slot / 4 + 1 then View(img, path) else None
  {
    hide SyncWrites, BytesAt, CStr, TableOf, SuperblockOf, CrashAt;
    var p := DeletePlan(sb, t, path);
    var j := p.slot;
    var e := t[j].(flags := WithDeleted(t[j].flags));
    CrashOneSlot(img, sb, t, p.sb, j, e, k, q);
    CrashOneSlot(img, sb, t, p.sb, j, e, k, path);
    OnlyMatch(sb, t, path);
    if q != path {
      SameLookup(img, sb, t, img, p.sb, p.table, q);
    }
  }

  /** Crash atomicity of mkdir. */
  lemma CrashMkdir(img: Image, sb: Superblock, t: Table, path: seq<byte>, k: nat, q: seq<byte>)
    requires Sound(img, sb, t) && CString(path) && 1 <= |path| <= 107 && Find(t, path) < 0
    requires MkdirPlan(sb, t, path).Commit? && k <= 1 + TABLE_SECTORS
    ensures var p := MkdirPlan(sb, t, path);
      var r := CrashAt(img, p.writes, k);
      && (q != path ==> View(r, q) == View(img, q))
      && View(r, path) == if k < 1 + p.slot / 4 + 1 then None else Some(File(FLAG_DIR, [], 0))
  {
    hide SyncWrites, CStr, TableOf, SuperblockOf, FileName, CrashAt, EntryOk, ByteAt, DataSector, Matches, Find, TableOk, Mixed;
    var p := MkdirPlan(sb, t, path);
    var j := p.slot;
    var e := NewEntry(path, 0, 0, 0, FLAG_DIR);
    forall q ensures Matches(e, q) <==> q == path {
      NewEntryMatches(path, 0, 0, 0, FLAG_DIR, q);
    }
    NewEntryOk(sb, path, 0, 0, 0, FLAG_DIR);
    CrashOneSlot(img, sb, t, p.sb, j, e, k, q);
    CrashOneSlot(img, sb, t, p.sb, j, e, k, path);
    OnlyMatch(sb, t, path);
    MixedFind(t, path, -1, j, e, 256, q);
    MixedOneSlot(t, j, e, 256);
    if q != path {
      SameLookup(img, sb, t, img, p.sb, p.table, q);
    }
    assert BytesAt(img, DataSector(p.sb, e), 0) == [];
  }

  lemma NewEntryOk(sb: Superblock, path: seq<byte>, size: u32, start: u32, count: u32, flags: byte)
    requires start + count <= sb.nextFree && size <= BLOCK * count
    ensures EntryOk(sb, NewEntry(path, size, start, count, flags))
  {
    assert FileName(path)[107] == 0;
  }

  // ---- the invariant

  lemma EraseOk(sb: Superblock, t: Table, i: int)
    requires TableOk(sb, t) && -1 <= i < 256
    ensures TableOk(sb, Erase(t, i))
  {
  }

  lemma InsertOk(sb: Superblock, t: Table, sb': Superblock, j: nat, e: Entry)
    requires TableOk(sb, t) && j < 256 && sb.nextFree <= sb'.nextFree && EntryOk(sb', e)
    requires Live(e) ==> forall i :: 0 <= i < 256 && i != j && Live(t[i]) ==> Disjoint(t[i], e) && Name(t[i]) != Name(e)
    ensures TableOk(sb', t[j := e])
  {
    hide CStr;
    var u := t[j := e];
    forall i | 0 <= i < 256 ensures EntryOk(sb', u[i]) {
      assert EntryOk(sb, t[i]);
    }
  }

  /** After the data (in the data region) and a whole sync, the volume is sound again. */
  lemma SyncSound(img: Image, mid: Image, sb: Superblock, t: Table)
    requires |mid| == |img| && Geometry(sb, |img|) && TableOk(sb, t)
    ensures Sound(Replay(mid, SyncWrites(sb, t)), sb, t)
  {
    WholeSync(mid, sb, t);
  }

  /** Create and grow keep the invariant when the stored name is the name of no other live file. */
  lemma PlaceTableOk(sb: Superblock, t: Table, path: seq<byte>, data: seq<byte>)
    requires TableOk(sb, t) && CString(path) && Room(sb, t, path, |data|)
    requires !InPlace(t, path, |data|) && PlacePlan(sb, t, path, data).Commit?
    requires sb.totalBlocks < 0x10_0000
    requires |path| <= 107 || Find(t, path[..107]) < 0
    ensures var p := PlacePlan(sb, t, path, data);
      TableOk(p.sb, p.table) && p.sb.nextFree == sb.nextFree + BlocksFor(|data|)
  {
    hide SyncWrites, FileName, CStr, DataWrites, BlocksFor, DataSector, TableOk, Find, FindFree, Erase, EntryOk, Deleted;
    var p := PlacePlan(sb, t, path, data);
    var n := BlocksFor(|data|);
    var e := NewEntry(path, |data|, sb.nextFree, n, 0);
    var i0, t1 := Find(t, path), Erase(t, Find(t, path));
    NameOfFileName(path);
    NewEntryOkSize(|data|);
    NewEntryOk(p.sb, path, |data|, sb.nextFree, n, 0);
    EraseOk(sb, t, i0);
    forall i | 0 <= i < 256 && Live(t1[i]) ensures Disjoint(t1[i], e) && Name(t1[i]) != Name(e) {
      OtherLive(sb, t, path, i);
    }
    InsertOk(sb, t1, p.sb, p.slot, e);
  }

  /** A live entry that is not erased has another name, and lies below the allocation mark. */
  lemma OtherLive(sb: Superblock, t: Table, path: seq<byte>, i: nat)
    requires TableOk(sb, t) && (|path| <= 107 || Find(t, path[..107]) < 0)
    requires i < 256 && Live(Erase(t, Find(t, path))[i])
    ensures var e := Erase(t, Find(t, path))[i]; e.startBlock + e.blockCount <= sb.nextFree && Name(e) != path[..Min(|path|, 107)]
  {
    hide TableOk, CStr, Find;
    LiveEntryOk(sb, t, i);
    NoOtherMatch(sb, t, path);
    assert Matches(t[i], Name(t[i]));
  }

  lemma LiveEntryOk(sb: Superblock, t: Table, i: nat)
    requires TableOk(sb, t) && i < 256
    ensures EntryOk(sb, t[i])
  {
  }

  /** Create and grow keep the invariant, except when a path too long to store collides
      with the live file that already has its first 107 bytes as name. */
  lemma PlaceSound(img: Image, sb: Superblock, t: Table, path: seq<byte>, data: seq<byte>)
    requires Sound(img, sb, t) && CString(path)
    requires Room(sb, t, path, |data|) && !InPlace(t, path, |data|) && PlacePlan(sb, t, path, data).Commit?
    ensures var p := PlacePlan(sb, t, path, data);
      Sound(Replay(img, p.writes), p.sb, p.table) <==> |path| <= 107 || Find(t, path[..107]) < 0
  {
    if |path| <= 107 || Find(t, path[..107]) < 0 {
      hide SyncWrites, TableOf, SuperblockOf, FileName, CStr, DataWrites, BlocksFor, TableOk;
      var p := PlacePlan(sb, t, path, data);
      var a := DataWrites(DataSector(sb, NewEntry(path, |data|, sb.nextFree, BlocksFor(|data|), 0)), data);
      PlaceTableOk(sb, t, path, data);
      ReplayAppend(img, a, SyncWrites(p.sb, p.table));
      SyncSound(img, Replay(img, a), p.sb, p.table);
    } else {
      PlaceCollides(sb, t, path, data);
    }
  }

  lemma PlaceCollides(sb: Superblock, t: Table, path: seq<byte>, data: seq<byte>)
    requires TableOk(sb, t) && CString(path) && |data| < WORD && PlacePlan(sb, t, path, data).Commit?
    requires |path| > 107 && Find(t, path[..107]) >= 0
    ensures var p := PlacePlan(sb, t, path, data); !TableOk(p.sb, p.table)
  {
    hide FileName, CStr, DataWrites, BlocksFor, SyncWrites, DataSector, Find, FindFree, TableOk;
    ShortNames(sb, t, path);
    NameTaken(sb, t, FindFree(t), path, |data|, sb.nextFree, BlocksFor(|data|), 0, PlacePlan(sb, t, path, data).sb);
  }

  /** A name of 107 bytes that is cut off a longer path and already taken is then there twice. */
  lemma NameTaken(sb: Superblock, t: Table, j: nat, path: seq<byte>, size: u32, start: u32, count: u32, flags: byte, sb': Superblock)
    requires TableOk(sb, t) && CString(path) && |path| > 107 && Find(t, path[..107]) >= 0 && !Deleted(flags)
    requires j < 256 && !Live(t[j])
    ensures !TableOk(sb', t[j := NewEntry(path, size, start, count, flags)])
  {
    hide FileName, CStr, Find, EntryOk, Disjoint, Deleted;
    var i, e := Find(t, path[..107]), NewEntry(path, size, start, count, flags);
    NameOfFileName(path);
    FileNameHead(path);
    assert Name(e) == path[..107];
    TwiceNamed(sb', t[j := e], i, j);
  }

  lemma TwiceNamed(sb: Superblock, t: Table, i: nat, j: nat)
    requires i < 256 && j < 256 && i != j && Live(t[i]) && Live(t[j]) && Name(t[i]) == Name(t[j])
    ensures !TableOk(sb, t)
  {
    hide CStr, EntryOk, Disjoint;
    assert Name(t[if i < j then i else j]) == Name(t[if i < j then j else i]);
  }

  lemma FileNameHead(path: seq<byte>)
    requires |path| > 0 && CString(path)
    ensures FileName(path)[0] != 0
  {
    assert path[0] in path;
  }

  lemma NewEntryOkSize(size: nat)
    requires size + BLOCK <= WORD
    ensures size <= BLOCK * BlocksFor(size)
  {
  }

  /** No live name is longer than 107 bytes, so a longer path is never found. */
  lemma ShortNames(sb: Superblock, t: Table, path: seq<byte>)
    requires TableOk(sb, t)
    ensures forall i :: 0 <= i < 256 && Live(t[i]) ==> |Name(t[i])| <= 107
    ensures |path| > 107 ==> Find(t, path) < 0
  {
    forall i | 0 <= i < 256 && Live(t[i]) ensures |Name(t[i])| <= 107 {
      assert EntryOk(sb, t[i]);
    }
  }

  lemma NoOtherMatch(sb: Superblock, t: Table, path: seq<byte>)
    requires TableOk(sb, t) && (|path| <= 107 || Find(t, path[..107]) < 0)
    ensures var name := path[..Min(|path|, 107)];
      forall i :: 0 <= i < 256 && Matches(t[i], name) ==> |path| <= 107 && i == Find(t, path)
  {
    if |path| <= 107 {
      assert path[..|path|] == path;
      OnlyMatch(sb, t, path);
    }
  }

  lemma DeleteSound(img: Image, sb: Superblock, t: Table, path: seq<byte>)
    requires Sound(img, sb, t) && DeletePlan(sb, t, path).Commit?
    ensures var p := DeletePlan(sb, t, path); Sound(Replay(img, p.writes), p.sb, p.table)
  {
    hide SyncWrites, TableOf, SuperblockOf, CStr;
    var p := DeletePlan(sb, t, path);
    EraseOk(sb, t, Find(t, path));
    assert TableOk(p.sb, p.table);
    SyncSound(img, img, p.sb, p.table);
  }

  /** Mkdir keeps the invariant, except when a path too long to store collides with a live file. */
  lemma MkdirSound(img: Image, sb: Superblock, t: Table, path: seq<byte>)
    requires Sound(img, sb, t) && CString(path) && Find(t, path) < 0 && MkdirPlan(sb, t, path).Commit?
    ensures var p := MkdirPlan(sb, t, path);
      Sound(Replay(img, p.writes), p.sb, p.table) <==> |path| <= 107 || Find(t, path[..107]) < 0
  {
    hide SyncWrites, TableOf, SuperblockOf, CStr, FileName, Find, FindFree, TableOk;
    var p := MkdirPlan(sb, t, path);
    if |path| <= 107 || Find(t, path[..107]) < 0 {
      MkdirTableOk(sb, t, path);
      SyncSound(img, img, p.sb, p.table);
    } else {
      NameTaken(sb, t, p.slot, path, 0, 0, 0, FLAG_DIR, p.sb);
    }
  }

  lemma MkdirTableOk(sb: Superblock, t: Table, path: seq<byte>)
    requires TableOk(sb, t) && CString(path) && Find(t, path) < 0 && MkdirPlan(sb, t, path).Commit?
    requires |path| <= 107 || Find(t, path[..107]) < 0
    ensures var p := MkdirPlan(sb, t, path); TableOk(p.sb, p.table)
  {
    hide SyncWrites, CStr, FileName, TableOk, Find;
    var p := MkdirPlan(sb, t, path);
    var e := NewEntry(path, 0, 0, 0, FLAG_DIR);
    NameOfFileName(path);
    NewEntryOk(sb, path, 0, 0, 0, FLAG_DIR);
    NoOtherMatch(sb, t, path);
    assert path[..Min(|path|, 107)] == Name(e);
    forall i | 0 <= i < 256 && i != p.slot && Live(t[i]) ensures Disjoint(t[i], e) && Name(t[i]) != Name(e) {
      assert Matches(t[i], Name(t[i]));
    }
    InsertOk(sb, t, p.sb, p.slot, e);
  }

  // ---- the invariant after a crash

  lemma LaterOk(sb: Superblock, t: Table, sb': Superblock)
    requires TableOk(sb, t) && sb.nextFree <= sb'.nextFree
    ensures TableOk(sb', t)
  {
    hide CStr;
    forall i | 0 <= i < 256 ensures EntryOk(sb', t[i]) { assert EntryOk(sb, t[i]); }
  }

  /** The new slot is not behind the slot that was erased. */
  lemma SlotBeforeErased(t: Table, path: seq<byte>)
    ensures var i, j := Find(t, path), FindFree(Erase(t, Find(t, path))); i >= 0 ==> 0 <= j <= i
  {
    hide CStr;
    var i := Find(t, path);
    assert i >= 0 ==> !Live(Erase(t, i)[i]);
  }

  lemma MixedEnds(t: Table, i: int, j: nat, e: Entry, m: nat)
    requires -1 <= i < 256 && j < 256 && (i >= 0 ==> j <= i)
    ensures var u := Mixed(Erase(t, i)[j := e], t, m);
      && (m <= j ==> u == t) && (m > j && m > i ==> u == Erase(t, i)[j := e])
      && (j < m <= i ==> u[j] == e && u[i] == t[i])
  {
    hide Live, CStr, WithDeleted;
  }

  /** A volume that a crash cut inside a create or grow is sound again, except between the table sector of the new slot
      and that of the erased one: there both hold the path. */
  lemma CrashPlaceSound(img: Image, sb: Superblock, t: Table, path: seq<byte>, data: seq<byte>, k: nat)
    requires Sound(img, sb, t) && CString(path) && 1 <= |path| <= 107
    requires Room(sb, t, path, |data|) && !InPlace(t, path, |data|)
    requires PlacePlan(sb, t, path, data).Commit? && k <= |PlacePlan(sb, t, path, data).writes|
    ensures var p, d := PlacePlan(sb, t, path, data), SectorsOf(|data|); var r := CrashAt(img, p.writes, k);
      Sound(r, SuperblockOf(r), TableOf(r)) <==> k <= d || !(p.slot < 4 * (k - d - 1) <= Find(t, path))
  {
    hide TableOf, SuperblockOf, DataWrites, SyncWrites, BytesAt, CrashAt, Find, FindFree, FileName, CStr, Mixed, TableOk, DataSector, Erase, BlocksFor;
    var p, d := PlacePlan(sb, t, path, data), SectorsOf(|data|);
    CrashMeta(img, sb, t, path, data, k);
    if k > d {
      var m, i := 4 * (k - d - 1), Find(t, path);
      SlotBeforeErased(t, path);
      PlaceTableOk(sb, t, path, data);
      MixedEnds(t, i, p.slot, NewEntry(path, |data|, sb.nextFree, BlocksFor(|data|), 0), m);
      LaterOk(sb, t, p.sb);
      if p.slot < m <= i {
        NewEntryMatches(path, |data|, sb.nextFree, BlocksFor(|data|), 0, path);
        TwiceNamed(p.sb, Mixed(p.table, t, m), p.slot, i);
      }
    }
  }

  /** A crash inside a sync that changes one slot leaves a sound volume when the sync does. */
  lemma CrashOneSlotSound(img: Image, sb: Superblock, t: Table, sb': Superblock, j: nat, e: Entry, k: nat)
    requires Sound(img, sb, t) && j < 256 && k <= 1 + TABLE_SECTORS && TableOk(sb', t[j := e])
    requires sb'.nextFree == sb.nextFree && Geometry(sb', |img|)
    ensures var r := CrashAt(img, SyncWrites(sb', t[j := e]), k); Sound(r, SuperblockOf(r), TableOf(r))
  {
    hide TableOf, SuperblockOf, SyncWrites, CrashAt, Mixed, TableOk;
    if k == 0 {
      NoWrites(img, SyncWrites(sb', t[j := e]));
    } else {
      CutSync(img, sb', t[j := e], k);
      MixedOneSlot(t, j, e, 4 * (k - 1));
      LaterOk(sb, t, sb');
    }
  }

  /** A crash inside a delete leaves a sound volume. */
  lemma CrashDeleteSound(img: Image, sb: Superblock, t: Table, path: seq<byte>, k: nat)
    requires Sound(img, sb, t) && DeletePlan(sb, t, path).Commit? && k <= 1 + TABLE_SECTORS
    ensures var r := CrashAt(img, DeletePlan(sb, t, path).writes, k); Sound(r, SuperblockOf(r), TableOf(r))
  {
    hide TableOf, SuperblockOf, SyncWrites, CrashAt, TableOk, CStr, Find;
    var p := DeletePlan(sb, t, path);
    var j := p.slot;
    EraseOk(sb, t, j);
    LaterOk(sb, p.table, p.sb);
    CrashOneSlotSound(img, sb, t, p.sb, j, t[j].(flags := WithDeleted(t[j].flags)), k);
  }

  /** A crash inside a mkdir of a path that fits leaves a sound volume. */
  lemma CrashMkdirSound(img: Image, sb: Superblock, t: Table, path: seq<byte>, k: nat)
    requires Sound(img, sb, t) && CString(path) && |path| <= 107 && Find(t, path) < 0
    requires MkdirPlan(sb, t, path).Commit? && k <= 1 + TABLE_SECTORS
    ensures var r := CrashAt(img, MkdirPlan(sb, t, path).writes, k); Sound(r, SuperblockOf(r), TableOf(r))
  {
    hide TableOf, SuperblockOf, SyncWrites, CrashAt, TableOk, CStr, Find, FindFree, FileName;
    var p := MkdirPlan(sb, t, path);
    MkdirTableOk(sb, t, path);
    CrashOneSlotSound(img, sb, t, p.sb, p.slot, NewEntry(path, 0, 0, 0, FLAG_DIR), k);
  }
}
