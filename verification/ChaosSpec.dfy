/** What the ChaosFS tables mean: lookup, allocation, the file contents a mounted
    volume shows, and the invariant every operation keeps. */
module ChaosSpec {
  import opened Base
  import opened ChaosLayout
  import opened Drive

  const EMPTY_ENTRY := Entry(seq(108, i => 0), 0, 0, 0, 0, seq(7, i => 0))

  // Largest drive modelled, in sectors (64 GB): no write loop reaches the 28-bit sector limit.
  const MAX_DRIVE: int := 0x800_0000

  type Table = t: seq<Entry> | |t| == 256 witness seq(256, i => EMPTY_ENTRY)

  predicate Live(e: Entry) { e.filename[0] != 0 && !Deleted(e.flags) }

  function Name(e: Entry): seq<byte> { CStr(e.filename) }

  /** `strcmp(e.filename, path) == 0` on an entry in use. */
  predicate Matches(e: Entry, path: seq<byte>) { Live(e) && Name(e) == path }

  /** The lowest slot from `i` on that matches, or -1. */
  function FindFrom(t: Table, path: seq<byte>, i: nat): (r: int)
    requires i <= 256
    ensures r == -1 || i <= r < 256
    ensures r >= 0 ==> Matches(t[r], path)
    ensures forall j :: i <= j < (if r < 0 then 256 else r) ==> !Matches(t[j], path)
    decreases 256 - i
  {
    if i == 256 then -1 else if Matches(t[i], path) then i else FindFrom(t, path, i + 1)
  }

  function Find(t: Table, path: seq<byte>): (r: int)
    ensures -1 <= r < 256
    ensures r >= 0 ==> Matches(t[r], path)
    ensures forall j :: 0 <= j < (if r < 0 then 256 else r) ==> !Matches(t[j], path)
  {
    FindFrom(t, path, 0)
  }

  function FreeFrom(t: Table, i: nat): (r: int)
    requires i <= 256
    ensures r == -1 || i <= r < 256
    ensures r >= 0 ==> !Live(t[r])
    ensures forall j :: i <= j < (if r < 0 then 256 else r) ==> Live(t[j])
    decreases 256 - i
  {
    if i == 256 then -1 else if !Live(t[i]) then i else FreeFrom(t, i + 1)
  }

  /** The lowest slot that is empty or deleted, or -1. */
  function FindFree(t: Table): (r: int)
    ensures -1 <= r < 256
    ensures r >= 0 ==> !Live(t[r])
    ensures forall j :: 0 <= j < (if r < 0 then 256 else r) ==> Live(t[j])
  {
    FreeFrom(t, 0)
  }

  /** The number of live entries among the first n. */
  function LiveCount(t: Table, n: nat): (c: nat)
    requires n <= 256
    ensures c <= n
  {
    if n == 0 then 0 else LiveCount(t, n - 1) + if Live(t[n - 1]) then 1 else 0
  }

  /** `memset` to zero followed by `strncpy(filename, path, 107)`. */
  function FileName(path: seq<byte>): Bytes108 {
    seq(108, i requires 0 <= i < 108 => if i < |path| && i < 107 then path[i] else 0)
  }

  /** The stored name is the path itself exactly when it is at most 107 bytes long;
      a longer path is stored under its first 107 bytes. */
  lemma NameOfFileName(path: seq<byte>)
    requires CString(path)
    ensures CStr(FileName(path)) == path[..Min(|path|, 107)]
  {
    var p := path[..Min(|path|, 107)];
    assert forall i :: 0 <= i < |p| ==> p[i] != 0;
    assert p == FileName(path)[..|p|];
    CStrUnique(FileName(path), p);
  }

  function NewEntry(path: seq<byte>, size: u32, start: u32, count: u32, flags: byte): Entry {
    Entry(FileName(path), size, start, count, flags, seq(7, i => 0))
  }

  /** Blocks for `size` bytes, with the 32-bit addition of the source. */
  function BlocksFor(size: u32): u32 {
    Max(1, (size + BLOCK - 1) % WORD / BLOCK)
  }

  /** The blocks that hold `size` bytes, at least one. */
  function Blocks(size: nat): nat { if size <= BLOCK then 1 else 1 + Blocks(size - BLOCK) }

  /** It is the least number of blocks, from one on, that hold them. */
  lemma {:induction false} FewestBlocks(size: nat, n: nat)
    ensures n >= 1 && size <= BLOCK * n <==> n >= Blocks(size)
  {
    if size > BLOCK && n >= 1 { FewestBlocks(size - BLOCK, n - 1); }
  }

  /** What the source computes, unless the addition wraps. */
  lemma {:induction false} BlocksForIs(size: u32)
    requires size + BLOCK <= WORD
    ensures BlocksFor(size) == Blocks(size)
  {
    if size > BLOCK { BlocksForIs(size - BLOCK); }
  }

  /** First sector of an entry's extent. The product wraps at 32 bits. */
  function DataSector(sb: Superblock, e: Entry): u32 {
    (sb.dataStart + e.startBlock * BLOCK % WORD / SECTOR) % WORD
  }

  /** What a lookup shows of a file: its flags, its bytes, and the blocks it may grow into. */
  datatype File = File(flags: byte, data: seq<byte>, blocks: nat)

  function FileOf(img: Image, sb: Superblock, e: Entry): File {
    File(e.flags, BytesAt(img, DataSector(sb, e), e.size), e.blockCount)
  }

  /** The file a lookup-based read of `path` returns. */
  function Lookup(img: Image, sb: Superblock, t: Table, path: seq<byte>): Option<File> {
    var i := Find(t, path);
    if i < 0 then None else Some(FileOf(img, sb, t[i]))
  }

  function SuperblockOf(img: Image): Superblock
    requires |img| > START_SECTOR
  {
    DecodeSuperblock(img[START_SECTOR])
  }

  function EntryOf(img: Image, i: nat): Entry
    requires i < 256 && |img| > TABLE_START + i / 4
  {
    SlotOf(img[TABLE_START + i / 4], i % 4)
  }

  function TableOf(img: Image): Table
    requires |img| >= TABLE_START + TABLE_SECTORS
  {
    seq(256, i requires 0 <= i < 256 => EntryOf(img, i))
  }

  /** Superblock fields no operation changes, and room for the extents. */
  predicate Geometry(sb: Superblock, n: nat) {
    && sb.magic == MAGIC && sb.version == VERSION && sb.maxFiles == MAX_FILES
    && TABLE_START + TABLE_SECTORS <= sb.dataStart
    && sb.totalBlocks < 0x10_0000
    && sb.dataStart + 8 * sb.totalBlocks <= n <= MAX_DRIVE
    && sb.nextFree <= sb.totalBlocks
  }

  /** A live entry names a file, and its extent lies below the allocation mark. */
  predicate EntryOk(sb: Superblock, e: Entry) {
    Live(e) ==> 0 in e.filename && e.startBlock + e.blockCount <= sb.nextFree && e.size <= BLOCK * e.blockCount
  }

  predicate Disjoint(a: Entry, b: Entry) {
    a.startBlock + a.blockCount <= b.startBlock || b.startBlock + b.blockCount <= a.startBlock
  }

  ghost predicate TableOk(sb: Superblock, t: Table) {
    && (forall i :: 0 <= i < 256 ==> EntryOk(sb, t[i]))
    && (forall i, j :: 0 <= i < j < 256 && Live(t[i]) && Live(t[j]) ==> Disjoint(t[i], t[j]) && Name(t[i]) != Name(t[j]))
  }

  /** The invariant of a mounted volume: sound metadata, and the metadata on the
      drive is the metadata in memory. */
  ghost predicate Sound(img: Image, sb: Superblock, t: Table) {
    && Geometry(sb, |img|) && TableOk(sb, t)
    && SuperblockOf(img) == sb && TableOf(img) == t
  }

  /** The sector writes of chaosfs_sync: superblock, then the table in ascending order. */
  ghost function TableWrites(t: Table): (ws: seq<SectorWrite>)
    ensures |ws| == TABLE_SECTORS && IsRun(TABLE_START, ws)
    ensures forall i {:trigger ws[i]} :: 0 <= i < TABLE_SECTORS ==> ws[i].data == EncodeFour(t, i)
  {
    seq(TABLE_SECTORS, i requires 0 <= i < TABLE_SECTORS => SectorWrite(TABLE_START + i, EncodeFour(t, i)))
  }

  ghost function SyncWrites(sb: Superblock, t: Table): (ws: seq<SectorWrite>)
    ensures |ws| == 1 + TABLE_SECTORS
  {
    [SectorWrite(START_SECTOR, EncodeSuperblock(sb))] + TableWrites(t)
  }

  ghost function DataWrites(sector: nat, data: seq<byte>): seq<SectorWrite> {
    RunOf(sector, SectorsOf(|data|), data)
  }

  /** What one operation does: fail and change nothing, or commit new metadata
      through a sequence of sector writes. */
  datatype Plan = Refuse | Commit(sb: Superblock, table: Table, slot: nat, writes: seq<SectorWrite>)

  /** An existing file whose blocks can hold `size` bytes is overwritten where it is. */
  predicate InPlace(t: Table, path: seq<byte>, size: u32) {
    var i := Find(t, path);
    i >= 0 && BlocksFor(size) <= t[i].blockCount
  }

  function Erase(t: Table, i: int): Table
    requires -1 <= i < 256
  {
    if i < 0 then t else t[i := t[i].(flags := WithDeleted(t[i].flags))]
  }

  ghost function OverwritePlan(sb: Superblock, t: Table, path: seq<byte>, data: seq<byte>): Plan
    requires |data| < WORD && InPlace(t, path, |data|)
  {
    var i := Find(t, path);
    var t' := t[i := t[i].(size := |data|)];
    Commit(sb, t', i, DataWrites(DataSector(sb, t[i]), data) + SyncWrites(sb, t'))
  }

  /** Create, or grow by deleting the old entry: fresh blocks, the lowest free slot. */
  ghost function PlacePlan(sb: Superblock, t: Table, path: seq<byte>, data: seq<byte>): Plan
    requires |data| < WORD
  {
    var t1 := Erase(t, Find(t, path));
    var j := FindFree(t1);
    if j < 0 then Refuse
    else
      var e := NewEntry(path, |data|, sb.nextFree, BlocksFor(|data|), 0);
      var sb' := sb.(nextFree := (sb.nextFree + BlocksFor(|data|)) % WORD, fileCount := (sb.fileCount + 1) % WORD);
      Commit(sb', t1[j := e], j, DataWrites(DataSector(sb, e), data) + SyncWrites(sb', t1[j := e]))
  }

  ghost function WritePlan(sb: Superblock, t: Table, path: seq<byte>, data: seq<byte>): Plan
    requires |data| < WORD
  {
    if InPlace(t, path, |data|) then OverwritePlan(sb, t, path, data) else PlacePlan(sb, t, path, data)
  }

  ghost function DeletePlan(sb: Superblock, t: Table, path: seq<byte>): Plan {
    var i := Find(t, path);
    if i < 0 then Refuse
    else
      var sb' := sb.(fileCount := (sb.fileCount - 1) % WORD);
      Commit(sb', Erase(t, i), i, SyncWrites(sb', Erase(t, i)))
  }

  /** Creates a directory entry; `Find(t, path) < 0` when it is used. */
  ghost function MkdirPlan(sb: Superblock, t: Table, path: seq<byte>): Plan {
    var j := FindFree(t);
    if j < 0 then Refuse
    else
      var t' := t[j := NewEntry(path, 0, 0, 0, FLAG_DIR)];
      var sb' := sb.(fileCount := (sb.fileCount + 1) % WORD);
      Commit(sb', t', j, SyncWrites(sb', t'))
  }

  /** The size can be rounded up to blocks in 32 bits, and the blocks are there. The
      source checks neither. */
  predicate Room(sb: Superblock, t: Table, path: seq<byte>, size: nat) {
    && size + BLOCK <= WORD
    && (InPlace(t, path, size) || sb.nextFree + BlocksFor(size) <= sb.totalBlocks)
  }

  /** The sectors of a live extent lie on the drive, behind the metadata. */
  lemma ExtentInRange(img: Image, sb: Superblock, t: Table, i: nat)
    requires Geometry(sb, |img|) && TableOk(sb, t) && i < 256 && Live(t[i])
    ensures DataSector(sb, t[i]) == sb.dataStart + 8 * t[i].startBlock
    ensures SectorsOf(t[i].size) <= 8 * t[i].blockCount
    ensures DataSector(sb, t[i]) + 8 * t[i].blockCount <= sb.dataStart + 8 * sb.nextFree <= |img|
  {
    assert EntryOk(sb, t[i]);
  }

  lemma OverwriteInRange(img: Image, sb: Superblock, t: Table, i: nat, size: nat)
    requires Geometry(sb, |img|) && TableOk(sb, t) && i < 256 && Live(t[i])
    requires size + BLOCK <= WORD && BlocksFor(size) <= t[i].blockCount
    ensures SectorsOf(size) <= 8 * t[i].blockCount
    ensures DataSector(sb, t[i]) + SectorsOf(size) <= |img|
  {
    ExtentInRange(img, sb, t, i);
  }

  lemma NewExtentInRange(sb: Superblock, n: nat, size: nat)
    requires Geometry(sb, n) && size + BLOCK <= WORD
    ensures sb.dataStart + 8 * sb.nextFree + SectorsOf(size) <= LBA_LIMIT
    ensures SectorsOf(size) <= 8 * BlocksFor(size)
    ensures sb.nextFree + BlocksFor(size) <= sb.totalBlocks ==> sb.dataStart + 8 * sb.nextFree + SectorsOf(size) <= n
  {
  }
}
