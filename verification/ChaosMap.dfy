/** The simple volume ChaosFS refines: a map from path to file, and a block counter. */
module ChaosMap {
  import opened Base
  import opened ChaosLayout
  import opened Drive
  import opened ChaosSpec
  import opened ChaosCrash
  import opened ChaosOverwrite

  type Path = seq<byte>

  datatype Volume = Volume(files: map<Path, File>, next: nat, total: nat)

  datatype Op =
    | WriteOp(path: Path, data: seq<byte>)
    | ReadOp(path: Path, max: u32)
    | DeleteOp(path: Path)
    | StatOp(path: Path)
    | MkdirOp(path: Path)

  /** What a call returns: its code, the bytes a read delivers, what stat reports. */
  datatype Reply = Reply(code: int, data: seq<byte>, size: nat, flags: byte)

  function Code(c: int): Reply { Reply(c, [], 0, 0) }

  /** The paths the file system can store and find. */
  predicate GoodPath(p: Path) { CString(p) && 1 <= |p| <= 107 }

  /** The blocks an operation needs are there. */
  predicate HasRoom(v: Volume, op: Op) {
    op.WriteOp? ==>
      && |op.data| + BLOCK <= WORD
      && (  (op.path in v.files && Blocks(|op.data|) <= v.files[op.path].blocks)
         || v.next + Blocks(|op.data|) <= v.total)
  }

  /** One operation on the map. */
  function Step(v: Volume, op: Op): (r: (Volume, Reply))
    requires op.WriteOp? ==> |op.data| < WORD
  {
    match op
    case WriteOp(p, d) =>
      var n := Blocks(|d|);
      if p in v.files && n <= v.files[p].blocks then
        (v.(files := v.files[p := v.files[p].(data := d)]), Code(0))
      else if p !in v.files && |v.files| >= MAX_FILES then (v, Code(-1))
      else (v.(files := v.files[p := File(0, d, n)], next := v.next + n), Code(0))
    case ReadOp(p, max) =>
      if p !in v.files then (v, Code(-1))
      else
        var d := v.files[p].data;
        (v, Reply(Min(|d|, max), d[..Min(|d|, max)], 0, 0))
    case DeleteOp(p) =>
      if p !in v.files then (v, Code(-1)) else (v.(files := v.files - {p}), Code(0))
    case StatOp(p) =>
      if p !in v.files then (v, Code(-1)) else (v, Reply(0, [], |v.files[p].data|, v.files[p].flags))
    case MkdirOp(p) =>
      if p in v.files then (v, Code(0))
      else if |v.files| >= MAX_FILES then (v, Code(-1))
      else (v.(files := v.files[p := File(FLAG_DIR, [], 0)]), Code(0))
  }

  /** The names of the live entries among the first n. */
  function Names(t: Table, n: nat): (s: set<Path>)
    requires n <= 256
    ensures forall p :: p in s <==> exists i :: 0 <= i < n && Matches(t[i], p)
  {
    if n == 0 then {} else Names(t, n - 1) + if Live(t[n - 1]) then {Name(t[n - 1])} else {}
  }

  /** The map a mounted volume represents. */
  ghost function Abs(img: Image, sb: Superblock, t: Table): Volume {
    Volume(map p | p in Names(t, 256) && Find(t, p) >= 0 :: FileOf(img, sb, t[Find(t, p)]), sb.nextFree, sb.totalBlocks)
  }

  // ---- the domain of the map

  lemma {:induction false} NamesCount(t: Table, n: nat)
    requires n <= 256
    requires forall i, j :: 0 <= i < j < 256 && Live(t[i]) && Live(t[j]) ==> Name(t[i]) != Name(t[j])
    ensures |Names(t, n)| == LiveCount(t, n)
  {
    if n > 0 {
      NamesCount(t, n - 1);
      if Live(t[n - 1]) { assert Name(t[n - 1]) !in Names(t, n - 1); }
    }
  }

  lemma {:induction false} LiveCountFull(t: Table, n: nat)
    requires n <= 256
    ensures LiveCount(t, n) == n <==> forall i :: 0 <= i < n ==> Live(t[i])
  {
    if n > 0 { LiveCountFull(t, n - 1); }
  }

  // ---- the file counter

  lemma {:induction false} LiveCountUpdate(t: Table, j: nat, e: Entry, n: nat)
    requires j < 256 && n <= 256
    ensures LiveCount(t[j := e], n) == LiveCount(t, n) + if j < n then (if Live(e) then 1 else 0) - (if Live(t[j]) then 1 else 0) else 0
  {
    if n > 0 { LiveCountUpdate(t, j, e, n - 1); }
  }

  /** How far the counter of the superblock is off. */
  function Drift(sb: Superblock, t: Table): int { (sb.fileCount - LiveCount(t, 256)) % WORD }

  lemma NewIsLive(path: Path, size: u32, start: u32, count: u32, flags: byte)
    requires GoodPath(path) && (flags == 0 || flags == FLAG_DIR)
    ensures Live(NewEntry(path, size, start, count, flags))
  {
  }

  lemma ErasedNotLive(t: Table, path: Path)
    requires Find(t, path) >= 0
    ensures Live(t[Find(t, path)]) && !Live(Erase(t, Find(t, path))[Find(t, path)])
  {
  }

  lemma ModShift(a: u32, c: int, k: int, m: int)
    ensures ((a + k) % WORD - (c + m)) % WORD == ((a - c) % WORD + k - m) % WORD
  {
    var q, r := (a + k) / WORD, (a - c) / WORD;
    assert (a + k) % WORD - (c + m) == (a - c) + (k - m) - q * WORD;
    assert (a - c) % WORD + k - m == (a - c) + (k - m) - r * WORD;
    SameMod((a - c) + (k - m), q);
    SameMod((a - c) + (k - m), r);
  }

  lemma SameMod(x: int, q: int)
    ensures (x - q * WORD) % WORD == x % WORD
  {
    assert x - q * WORD == (x / WORD - q) * WORD + x % WORD;
  }

  /** A write adds one to what the counter is off exactly when it grows a file, which is erased without being counted
      down. */
  lemma WriteDrift(sb: Superblock, t: Table, path: Path, data: seq<byte>)
    requires GoodPath(path) && |data| + BLOCK <= WORD
    ensures var p := WritePlan(sb, t, path, data);
      p.Commit? ==> Drift(p.sb, p.table) == (Drift(sb, t) + if Find(t, path) >= 0 && !InPlace(t, path, |data|) then 1 else 0) % WORD
  {
    hide Find, FindFree, SyncWrites, DataWrites, BlocksFor, LiveCount, DataSector, NewEntry, Erase, Live;
    var i := Find(t, path);
    if InPlace(t, path, |data|) {
      OverwriteCount(t, i, |data|);
    } else {
      PlaceCount(sb, t, path, data);
      ModShift(sb.fileCount, LiveCount(t, 256), 1, if i >= 0 then 0 else 1);
    }
  }

  /** No delete or mkdir changes it. */
  lemma DeleteDrift(sb: Superblock, t: Table, path: Path)
    ensures var p := DeletePlan(sb, t, path); p.Commit? ==> Drift(p.sb, p.table) == Drift(sb, t)
  {
    hide Find, SyncWrites, LiveCount, Erase, Live;
    var i := Find(t, path);
    if i >= 0 {
      ErasedNotLive(t, path);
      EraseCount(t, i);
      ModShift(sb.fileCount, LiveCount(t, 256), -1, -1);
    }
  }

  lemma MkdirDrift(sb: Superblock, t: Table, path: Path)
    requires GoodPath(path)
    ensures var p := MkdirPlan(sb, t, path); p.Commit? ==> Drift(p.sb, p.table) == Drift(sb, t)
  {
    hide FindFree, SyncWrites, LiveCount, NewEntry;
    MkdirCount(sb, t, path);
    ModShift(sb.fileCount, LiveCount(t, 256), 1, 1);
  }

  lemma OverwriteCount(t: Table, i: nat, size: u32)
    requires i < 256
    ensures LiveCount(t[i := t[i].(size := size)], 256) == LiveCount(t, 256)
  {
    LiveCountUpdate(t, i, t[i].(size := size), 256);
  }

  lemma EraseCount(t: Table, i: nat)
    requires i < 256 && Live(t[i]) && !Live(Erase(t, i)[i])
    ensures LiveCount(Erase(t, i), 256) == LiveCount(t, 256) - 1
  {
    LiveCountUpdate(t, i, Erase(t, i)[i], 256);
  }

  lemma PlaceCount(sb: Superblock, t: Table, path: Path, data: seq<byte>)
    requires GoodPath(path) && |data| < WORD
    ensures var p := PlacePlan(sb, t, path, data);
      p.Commit? ==> LiveCount(p.table, 256) == LiveCount(t, 256) + if Find(t, path) >= 0 then 0 else 1
  {
    hide LiveCount, FileName, CStr, SyncWrites, DataWrites, BlocksFor, DataSector, NewEntry, Live;
    var i := Find(t, path);
    var t1 := Erase(t, i);
    if i >= 0 {
      ErasedNotLive(t, path);
      EraseCount(t, i);
    }
    var j := FindFree(t1);
    if j >= 0 {
      var e := NewEntry(path, |data|, sb.nextFree, BlocksFor(|data|), 0);
      NewIsLive(path, |data|, sb.nextFree, BlocksFor(|data|), 0);
      LiveCountUpdate(t1, j, e, 256);
    }
  }

  lemma MkdirCount(sb: Superblock, t: Table, path: Path)
    requires GoodPath(path)
    ensures var p := MkdirPlan(sb, t, path); p.Commit? ==> LiveCount(p.table, 256) == LiveCount(t, 256) + 1
  {
    hide LiveCount, FileName, CStr, SyncWrites, NewEntry, Live;
    var j := FindFree(t);
    if j >= 0 {
      NewIsLive(path, 0, 0, 0, FLAG_DIR);
      LiveCountUpdate(t, j, NewEntry(path, 0, 0, 0, FLAG_DIR), 256);
    }
  }

  /** The map is what lookups show, path by path. */
  lemma AbsLookup(img: Image, sb: Superblock, t: Table, p: Path)
    ensures p in Abs(img, sb, t).files <==> Find(t, p) >= 0
    ensures Lookup(img, sb, t, p) == if p in Abs(img, sb, t).files then Some(Abs(img, sb, t).files[p]) else None
  {
    hide CStr, FileOf;
    if Find(t, p) >= 0 { assert p in Names(t, 256); }
  }

  /** No slot is free exactly when the map holds 256 files. */
  lemma AbsFull(img: Image, sb: Superblock, t: Table)
    requires TableOk(sb, t)
    ensures |Abs(img, sb, t).files| == LiveCount(t, 256)
    ensures FindFree(t) < 0 <==> |Abs(img, sb, t).files| >= 256
  {
    hide CStr, FileOf, EntryOk, Names, LiveCount, Find, FindFree;
    var m := Abs(img, sb, t).files;
    AbsNames(img, sb, t);
    NamesCount(t, 256);
    LiveCountFull(t, 256);
    FindFreeFull(t);
  }

  lemma AbsNames(img: Image, sb: Superblock, t: Table)
    ensures Abs(img, sb, t).files.Keys == Names(t, 256)
  {
    hide CStr, FileOf, Live;
    forall p ensures p in Abs(img, sb, t).files <==> p in Names(t, 256) { AbsLookup(img, sb, t, p); }
  }

  lemma FindFreeFull(t: Table)
    ensures FindFree(t) < 0 <==> forall i :: 0 <= i < 256 ==> Live(t[i])
  {
    hide Live;
  }

  /** A volume whose lookups are those of a map is that map. */
  lemma AbsIs(img: Image, sb: Superblock, t: Table, files: map<Path, File>)
    requires forall p :: Lookup(img, sb, t, p) == if p in files then Some(files[p]) else None
    ensures Abs(img, sb, t).files == files
  {
    hide CStr, FileOf, Lookup;
    var m := Abs(img, sb, t).files;
    forall p ensures p in m <==> p in files { AbsLookup(img, sb, t, p); }
    forall p | p in files ensures m[p] == files[p] { AbsLookup(img, sb, t, p); }
  }

  // ---- each plan is one step of the map

  /** A committed plan whose final image shows `f` for `path` and the old file for every
      other path. */
  lemma CommitAbs(img: Image, sb: Superblock, t: Table, p: Plan, path: Path, f: Option<File>)
    requires Sound(img, sb, t) && p.Commit?
    requires Sound(Replay(img, p.writes), p.sb, p.table)
    requires forall q :: q != path ==> View(Replay(img, p.writes), q) == View(img, q)
    requires View(Replay(img, p.writes), path) == f
    ensures Abs(Replay(img, p.writes), p.sb, p.table).files ==
      match f
      case None => Abs(img, sb, t).files - {path}
      case Some(x) => Abs(img, sb, t).files[path := x]
  {
    hide CStr, FileOf, Lookup, TableOf, SuperblockOf, TableOk, Replay, Abs, Find;
    var r := Replay(img, p.writes);
    var m := Abs(img, sb, t).files;
    var m' := match f case None => m - {path} case Some(x) => m[path := x];
    forall q ensures Lookup(r, p.sb, p.table, q) == if q in m' then Some(m'[q]) else None {
      AbsLookup(img, sb, t, q);
      if q != path { assert View(r, q) == View(img, q); }
    }
    AbsIs(r, p.sb, p.table, m');
  }

  lemma AbsCounters(img: Image, sb: Superblock, t: Table)
    ensures Abs(img, sb, t).next == sb.nextFree && Abs(img, sb, t).total == sb.totalBlocks
  {
  }

  lemma LookupFound(img: Image, sb: Superblock, t: Table, path: Path)
    requires Find(t, path) >= 0
    ensures Lookup(img, sb, t, path) == Some(FileOf(img, sb, t[Find(t, path)]))
  {
  }

  /** An overwrite in place is the first case of a write on the map. */
  lemma OverwriteAbs(img: Image, sb: Superblock, t: Table, path: Path, data: seq<byte>)
    requires Sound(img, sb, t) && GoodPath(path) && |data| + BLOCK <= WORD && InPlace(t, path, |data|)
    ensures var p := WritePlan(sb, t, path, data);
      && Sound(Replay(img, p.writes), p.sb, p.table)
      && Step(Abs(img, sb, t), WriteOp(path, data)) == (Abs(Replay(img, p.writes), p.sb, p.table), Code(0))
  {
    hide SyncWrites, TableOf, SuperblockOf, CStr, DataWrites, BytesAt, Replay, View, Abs, FileName, Lookup, DataSector, TableOk, Find, Blocks;
    BlocksForIs(|data|);
    var p := WritePlan(sb, t, path, data);
    var r := Replay(img, p.writes);
    var v := Abs(img, sb, t);
    AbsLookup(img, sb, t, path);
    LookupFound(img, sb, t, path);
    AbsCounters(img, sb, t);
    AbsCounters(r, p.sb, p.table);
    OverwriteSound(img, sb, t, path, data);
    WholeCut(img, p.writes);
    DataRunLength(DataSector(sb, t[Find(t, path)]), data);
    var f := v.files[path].(data := data);
    forall q ensures (q != path ==> View(r, q) == View(img, q)) && View(r, path) == Some(f) {
      CrashOverwrite(img, sb, t, path, data, |p.writes|, q);
    }
    CommitAbs(img, sb, t, p, path, Some(f));
  }

  /** Create and grow are the last case of a write on the map. */
  lemma PlaceAbs(img: Image, sb: Superblock, t: Table, path: Path, data: seq<byte>)
    requires Sound(img, sb, t) && GoodPath(path) && Room(sb, t, path, |data|) && !InPlace(t, path, |data|)
    requires PlacePlan(sb, t, path, data).Commit?
    ensures var p := PlacePlan(sb, t, path, data);
      && Sound(Replay(img, p.writes), p.sb, p.table)
      && Abs(Replay(img, p.writes), p.sb, p.table) ==
         Abs(img, sb, t).(files := Abs(img, sb, t).files[path := File(0, data, BlocksFor(|data|))],
                          next := sb.nextFree + BlocksFor(|data|))
  {
    hide SyncWrites, TableOf, SuperblockOf, CStr, DataWrites, BytesAt, Replay, View, FileName, Lookup, DataSector, TableOk, Find, BlocksFor;
    var p := PlacePlan(sb, t, path, data);
    var r := Replay(img, p.writes);
    PlaceSound(img, sb, t, path, data);
    PlaceTableOk(sb, t, path, data);
    WholeCut(img, p.writes);
    DataRunLength(DataSector(sb, NewEntry(path, |data|, sb.nextFree, BlocksFor(|data|), 0)), data);
    var f := File(0, data, BlocksFor(|data|));
    forall q ensures (q != path ==> View(r, q) == View(img, q)) && View(r, path) == Some(f) {
      CrashPlace(img, sb, t, path, data, |p.writes|, q);
    }
    CommitAbs(img, sb, t, p, path, Some(f));
  }

  /** chaosfs_write is one step of the map. */
  lemma WriteAbs(img: Image, sb: Superblock, t: Table, path: Path, data: seq<byte>)
    requires Sound(img, sb, t) && GoodPath(path) && Room(sb, t, path, |data|)
    ensures var v := Abs(img, sb, t);
      var p := WritePlan(sb, t, path, data);
      && (p.Refuse? ==> Step(v, WriteOp(path, data)) == (v, Code(-1)))
      && (p.Commit? ==>
            && Sound(Replay(img, p.writes), p.sb, p.table)
            && Step(v, WriteOp(path, data)) == (Abs(Replay(img, p.writes), p.sb, p.table), Code(0)))
  {
    hide SyncWrites, TableOf, SuperblockOf, CStr, DataWrites, BytesAt, Replay, View, FileName, DataSector, TableOk, Find, FindFree, BlocksFor, Blocks, Abs;
    BlocksForIs(|data|);
    if InPlace(t, path, |data|) {
      OverwriteAbs(img, sb, t, path, data);
    } else {
      AbsLookup(img, sb, t, path);
      LookupCapacity(img, sb, t, path);
      AbsFull(img, sb, t);
      AbsCounters(img, sb, t);
      EraseFree(t, path);
      if WritePlan(sb, t, path, data).Commit? {
        PlaceAbs(img, sb, t, path, data);
      }
    }
  }

  lemma LookupCapacity(img: Image, sb: Superblock, t: Table, path: Path)
    ensures Find(t, path) >= 0 ==> Lookup(img, sb, t, path).Some? && Lookup(img, sb, t, path).value.blocks == t[Find(t, path)].blockCount
  {
  }

  /** Erasing an entry frees its slot, so only a create can find the table full. */
  lemma EraseFree(t: Table, path: Path)
    ensures FindFree(Erase(t, Find(t, path))) < 0 <==> Find(t, path) < 0 && FindFree(t) < 0
  {
    var i := Find(t, path);
    assert i >= 0 ==> !Live(Erase(t, i)[i]);
  }

  /** chaosfs_delete is one step of the map. */
  lemma DeleteAbs(img: Image, sb: Superblock, t: Table, path: Path)
    requires Sound(img, sb, t)
    ensures var v := Abs(img, sb, t);
      var p := DeletePlan(sb, t, path);
      && (p.Refuse? ==> Step(v, DeleteOp(path)) == (v, Code(-1)))
      && (p.Commit? ==>
            && Sound(Replay(img, p.writes), p.sb, p.table)
            && Step(v, DeleteOp(path)) == (Abs(Replay(img, p.writes), p.sb, p.table), Code(0)))
  {
    hide SyncWrites, TableOf, SuperblockOf, CStr, Replay, View, Lookup, TableOk, Find;
    var p := DeletePlan(sb, t, path);
    AbsLookup(img, sb, t, path);
    if p.Commit? {
      var r := Replay(img, p.writes);
      DeleteSound(img, sb, t, path);
      WholeCut(img, p.writes);
      forall q ensures (q != path ==> View(r, q) == View(img, q)) && View(r, path) == None {
        CrashDelete(img, sb, t, path, |p.writes|, q);
      }
      CommitAbs(img, sb, t, p, path, None);
    }
  }

  lemma MkdirCommitted(img: Image, sb: Superblock, t: Table, path: Path)
    requires Sound(img, sb, t) && GoodPath(path) && Find(t, path) < 0 && MkdirPlan(sb, t, path).Commit?
    ensures var p := MkdirPlan(sb, t, path);
      && Sound(Replay(img, p.writes), p.sb, p.table)
      && Abs(Replay(img, p.writes), p.sb, p.table) == Abs(img, sb, t).(files := Abs(img, sb, t).files[path := File(FLAG_DIR, [], 0)])
  {
    hide SyncWrites, TableOf, SuperblockOf, CStr, Replay, View, Lookup, TableOk, Find, FindFree, FileName, Abs;
    var p := MkdirPlan(sb, t, path);
    var r := Replay(img, p.writes);
    MkdirSound(img, sb, t, path);
    WholeCut(img, p.writes);
    forall q ensures (q != path ==> View(r, q) == View(img, q)) && View(r, path) == Some(File(FLAG_DIR, [], 0)) {
      CrashMkdir(img, sb, t, path, |p.writes|, q);
    }
    CommitAbs(img, sb, t, p, path, Some(File(FLAG_DIR, [], 0)));
    AbsCounters(img, sb, t);
    AbsCounters(r, p.sb, p.table);
  }

  /** chaosfs_mkdir is one step of the map. */
  lemma MkdirAbs(img: Image, sb: Superblock, t: Table, path: Path)
    requires Sound(img, sb, t) && GoodPath(path)
    ensures var v := Abs(img, sb, t);
      if Find(t, path) >= 0 then Step(v, MkdirOp(path)) == (v, Code(0))
      else
        var p := MkdirPlan(sb, t, path);
        && (p.Refuse? ==> Step(v, MkdirOp(path)) == (v, Code(-1)))
        && (p.Commit? ==>
              && Sound(Replay(img, p.writes), p.sb, p.table)
              && Step(v, MkdirOp(path)) == (Abs(Replay(img, p.writes), p.sb, p.table), Code(0)))
  {
    hide SyncWrites, TableOf, SuperblockOf, CStr, Replay, TableOk, Find, FindFree, FileName, Abs, Lookup;
    AbsLookup(img, sb, t, path);
    AbsFull(img, sb, t);
    if Find(t, path) < 0 && MkdirPlan(sb, t, path).Commit? { MkdirCommitted(img, sb, t, path); }
  }

  /** The map of a volume that a crash cut inside a create or grow: the old one, or the one with the new file. */
  lemma CrashedMap(img: Image, sb: Superblock, t: Table, path: Path, data: seq<byte>, k: nat)
    requires Sound(img, sb, t) && GoodPath(path) && Room(sb, t, path, |data|) && !InPlace(t, path, |data|)
    requires PlacePlan(sb, t, path, data).Commit? && k <= |PlacePlan(sb, t, path, data).writes|
    ensures var p := PlacePlan(sb, t, path, data); var r := CrashAt(img, p.writes, k); var files := Abs(img, sb, t).files;
      Abs(r, SuperblockOf(r), TableOf(r)).files ==
        if k < CommitPoint(p.slot, |data|) then files else files[path := File(0, data, Blocks(|data|))]
  {
    hide PlacePlan, TableOf, SuperblockOf, CStr, CrashAt, Lookup, TableOk, Find, BlocksFor, Blocks, Abs, InPlace;
    BlocksForIs(|data|);
    var p := PlacePlan(sb, t, path, data);
    var r, files := CrashAt(img, p.writes, k), Abs(img, sb, t).files;
    var files' := if k < CommitPoint(p.slot, |data|) then files else files[path := File(0, data, BlocksFor(|data|))];
    forall q ensures Lookup(r, SuperblockOf(r), TableOf(r), q) == if q in files' then Some(files'[q]) else None {
      CrashPlace(img, sb, t, path, data, k, q);
      AbsLookup(img, sb, t, q);
      AbsLookup(img, sb, t, path);
    }
    AbsIs(r, SuperblockOf(r), TableOf(r), files');
  }
}
