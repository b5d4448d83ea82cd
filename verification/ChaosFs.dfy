/** fs/chaosfs.c: the mounted file system, its in-memory superblock and table
    updated in place, and the sector loops of its operations. */
module ChaosFs {
  import opened Arith
  import opened Base
  import opened ChaosLayout
  import opened Drive
  import opened ChaosSpec

  /** The bytes of the in-memory file table. */
  function TableBytes(t: Table, n: nat): (s: seq<byte>)
    requires n <= TABLE_SECTORS
    ensures |s| == SECTOR * n
    ensures forall i :: 0 <= i < n ==> SectorSlice(s, i) == EncodeFour(t, i)
  {
    if n == 0 then []
    else
      var s := TableBytes(t, n - 1) + EncodeFour(t, n - 1);
      assert forall i :: 0 <= i < n - 1 ==> SectorSlice(s, i) == SectorSlice(TableBytes(t, n - 1), i);
      assert SectorSlice(s, n - 1) == EncodeFour(t, n - 1);
      s
  }

  lemma FullSlice(s: Sector)
    ensures SectorSlice(s, 0) == s
  {
  }

  lemma StartOfRun(img: Image, base: nat, data: seq<byte>)
    ensures RunOf(base, 0, data) == [] && Replay(img, []) == img
  {
  }

  lemma RunOfTable(t: Table)
    ensures RunOf(TABLE_START, TABLE_SECTORS, TableBytes(t, TABLE_SECTORS)) == TableWrites(t)
  {
    var a, b := RunOf(TABLE_START, TABLE_SECTORS, TableBytes(t, TABLE_SECTORS)), TableWrites(t);
    forall i | 0 <= i < |a| ensures a[i] == b[i] {
      assert a[i].data == EncodeFour(t, i);
    }
  }

  /** A run extended by the sectors that follow it in the data. */
  lemma RunOfExtend(base: nat, a: nat, c: nat, data: seq<byte>)
    requires SECTOR * a <= |data|
    ensures RunOf(base, a, data) + RunOf(base + a, c, data[SECTOR * a..]) == RunOf(base, a + c, data)
  {
    var rest := data[SECTOR * a..];
    var l, r := RunOf(base, a, data) + RunOf(base + a, c, rest), RunOf(base, a + c, data);
    forall i | 0 <= i < |l| ensures l[i] == r[i] {
      if i >= a {
        assert l[i] == RunOf(base + a, c, rest)[i - a];
        assert SectorSlice(rest, i - a) == SectorSlice(data, i);
      }
    }
  }

  /** A zero-padded chunk buffer holds the sectors of the data it was filled from. */
  lemma ChunkRun(base: nat, data: seq<byte>, chunk: nat, buf: seq<byte>)
    requires chunk <= |data| && SectorsOf(chunk) * SECTOR <= |buf|
    requires chunk % SECTOR == 0 || chunk == |data|
    requires forall k :: 0 <= k < chunk ==> buf[k] == data[k]
    requires forall k :: chunk <= k < SectorsOf(chunk) * SECTOR ==> buf[k] == 0
    ensures RunOf(base, SectorsOf(chunk), buf) == RunOf(base, SectorsOf(chunk), data)
  {
    var a, b := RunOf(base, SectorsOf(chunk), buf), RunOf(base, SectorsOf(chunk), data);
    forall i | 0 <= i < |a| ensures a[i] == b[i] {
      assert SectorSlice(buf, i) == SectorSlice(data, i);
    }
  }

  /** A chunk taken at a 4096-byte boundary: its sectors follow those before it. */
  lemma SectorsOfStep(at: nat, chunk: nat, n: nat)
    requires at % 4096 == 0 && at + chunk <= n && chunk <= 4096
    ensures SECTOR * SectorsOf(at) == at
    ensures SectorsOf(at + chunk) == SectorsOf(at) + SectorsOf(chunk) <= SectorsOf(n)
    ensures SectorsOf(0) == 0 && SectorsOf(4096) == 8
    ensures SECTOR * (SectorsOf(chunk) - 1) < chunk <= SECTOR * SectorsOf(chunk)
    ensures SectorsOf(n) <= n
  {
    var q := at / 4096;
    assert at == 512 * (8 * q);
    Div512(8 * q, 511);
    Div512(8 * q, chunk + 511);
    Div512Grows(at + chunk + 511, n + 511);
    SectorsAbove(chunk);
    SectorsAbove(n);
  }

  lemma SectorsAbove(n: nat)
    ensures SECTOR * (SectorsOf(n) - 1) < n <= SECTOR * SectorsOf(n) && SectorsOf(n) <= n
  {
    var q := (n + 511) / 512;
    assert 512 * q <= n + 511 < 512 * (q + 1);
  }

  lemma ByteAtShift(img: Image, base: nat, s: nat, k: nat)
    ensures ByteAt(img, base + s, k) == ByteAt(img, base, SECTOR * s + k)
  {
    assert (SECTOR * s + k) / SECTOR == s + k / SECTOR;
  }

  /** The bytes of table sectors are the entries they hold. */
  lemma TableFromBytes(img: Image, n: nat, buf: seq<byte>)
    requires n <= TABLE_SECTORS && SECTOR * n <= |buf| && TABLE_START + n <= |img|
    requires forall i :: 0 <= i < SECTOR * n ==> buf[0 + i] == ByteAt(img, TABLE_START, i)
    ensures forall i {:trigger buf[128 * i..128 * i + 128]} :: 0 <= i < 4 * n ==>
      buf[128 * i..128 * i + 128] == img[TABLE_START + i / 4][128 * (i % 4)..128 * (i % 4) + 128]
  {
    forall i | 0 <= i < 4 * n
      ensures buf[128 * i..128 * i + 128] == img[TABLE_START + i / 4][128 * (i % 4)..128 * (i % 4) + 128]
    {
      var a, b := buf[128 * i..128 * i + 128], img[TABLE_START + i / 4][128 * (i % 4)..128 * (i % 4) + 128];
      forall k | 0 <= k < 128 ensures a[k] == b[k] {
        var p := 128 * i + k;
        assert p / SECTOR == i / 4 && p % SECTOR == 128 * (i % 4) + k;
        assert buf[0 + p] == ByteAt(img, TABLE_START, p);
      }
      assert a == b;
    }
  }

  class ChaosFs {
    const drive: AtaDrive
    const sectorBuf: array<byte>
    const fileTable: array<Entry>
    var superblock: Superblock
    var mounted: bool

    ghost predicate Shape()
      reads this, drive
    {
      && sectorBuf.Length == 4096 && fileTable.Length == 256
      && |drive.sectors| <= MAX_DRIVE && drive.present
    }

    /** The table as a value. */
    ghost function Entries(): Table
      requires fileTable.Length == 256
      reads fileTable
    {
      fileTable[..]
    }

    /** The invariant of a mounted, synchronised volume. */
    ghost predicate Valid()
      reads this, drive, fileTable
    {
      Shape() && mounted && Sound(drive.sectors, superblock, Entries())
    }

    constructor (d: AtaDrive)
      requires |d.sectors| <= MAX_DRIVE && d.present
      ensures Shape() && !mounted && drive == d && fresh(sectorBuf) && fresh(fileTable)
    {
      drive := d;
      sectorBuf := new byte[4096](_ => 0);
      fileTable := new Entry[256](_ => EMPTY_ENTRY);
      superblock := DecodeSuperblock(seq(512, i => 0));
      mounted := false;
    }

    /** chaosfs_init: mounts the volume on the drive. A table of more than 256 entries
        would run past the buffer, so it is not asked for. */
    method Mount() returns (ok: bool)
      requires Shape()
      requires |drive.sectors| > START_SECTOR ==> SuperblockOf(drive.sectors).maxFiles <= MAX_FILES
      modifies this`superblock, this`mounted, fileTable
      ensures Shape()
      ensures ok ==> mounted && |drive.sectors| > START_SECTOR && superblock == SuperblockOf(drive.sectors)
      ensures ok ==> superblock.magic == MAGIC && superblock.version == VERSION
      ensures ok && superblock.maxFiles == MAX_FILES ==>
        |drive.sectors| >= TABLE_START + TABLE_SECTORS && Entries() == TableOf(drive.sectors)
      ensures |drive.sectors| >= TABLE_START + TABLE_SECTORS ==>
        (ok <==> SuperblockOf(drive.sectors).magic == MAGIC && SuperblockOf(drive.sectors).version == VERSION)
      ensures !ok ==> mounted == old(mounted)
    {
      hide DecodeSuperblock, DecodeEntry, Le32, FromLe32;
      var buf := new byte[TABLE_SECTORS * SECTOR];
      var rc := drive.ReadSectors(START_SECTOR, 1, buf, 0);
      if rc < 0 { return false; }
      assert buf[..SECTOR] == drive.sectors[START_SECTOR] by {
        forall k | 0 <= k < SECTOR ensures buf[k] == drive.sectors[START_SECTOR][k] {
          assert buf[0 + k] == ByteAt(drive.sectors, START_SECTOR, k);
        }
      }
      superblock := DecodeSuperblock(buf[..SECTOR]);
      if superblock.magic != MAGIC { return false; }
      if superblock.version != VERSION { return false; }
      var tableSectors := (superblock.maxFiles * 128 + 511) / 512;
      var remaining, offset := tableSectors, 0;
      while remaining > 0
        invariant 0 <= remaining && remaining + offset == tableSectors
        invariant offset == 0 || offset == tableSectors
        invariant offset > 0 ==> TABLE_START + offset <= |drive.sectors|
        invariant mounted == old(mounted) && superblock == SuperblockOf(drive.sectors)
        invariant offset > 0 ==> forall i :: 0 <= i < 4 * offset ==> fileTable[i] == EntryOf(drive.sectors, i)
      {
        var chunk := if remaining > 128 then 128 else remaining;
        rc := drive.ReadSectors(TABLE_START + offset, chunk, buf, 0);
        if rc < 0 { return false; }
        ghost var lba := (TABLE_START + offset) % LBA_LIMIT;
        assert offset == 0 && lba == TABLE_START;
        forall i | 0 <= i < SECTOR * chunk ensures buf[..][0 + i] == ByteAt(drive.sectors, TABLE_START, i) {
          assert buf[0 + i] == ByteAt(drive.sectors, lba, i);
        }
        TableFromBytes(drive.sectors, chunk, buf[..]);
        forall i | 0 <= i < 4 * chunk { fileTable[i] := DecodeEntry(buf[128 * i..128 * i + 128]); }
        offset := offset + chunk;
        remaining := remaining - chunk;
      }
      mounted := true;
      return true;
    }

    /** chaosfs_disk_stats: the file count is the number of live entries, not the counter in
        the superblock. */
    method DiskStats() returns (total: u32, used: u32, count: nat, blockSize: u32)
      requires Shape()
      requires mounted ==> superblock.maxFiles <= MAX_FILES
      ensures !mounted ==> total == used == count == blockSize == 0
      ensures mounted ==> total == superblock.totalBlocks && used == superblock.nextFree
      ensures mounted ==> blockSize == superblock.blockSize && count == LiveCount(Entries(), superblock.maxFiles)
    {
      if !mounted { return 0, 0, 0, 0; }
      total, used, blockSize := superblock.totalBlocks, superblock.nextFree, superblock.blockSize;
      count := 0;
      for i := 0 to superblock.maxFiles
        invariant count == LiveCount(Entries(), i)
      {
        if fileTable[i].filename[0] != 0 && !Deleted(fileTable[i].flags) { count := count + 1; }
      }
    }

    method Sync() returns (r: int)
      requires Shape()
      modifies drive`sectors, drive`log
      ensures Shape()
      ensures old(|drive.sectors|) >= TABLE_START + TABLE_SECTORS ==>
                && r == 0
                && drive.log == old(drive.log) + SyncWrites(superblock, Entries())
                && drive.sectors == Replay(old(drive.sectors), SyncWrites(superblock, Entries()))
      ensures r == 0 || r == -1
    {
      hide EncodeSuperblock, EncodeFour, Le32, TableBytes, RunOf, TableWrites, SectorSlice, Replay;
      ghost var img, log := drive.sectors, drive.log;
      var rc := drive.WriteSectors(START_SECTOR, 1, EncodeSuperblock(superblock));
      if rc < 0 { return -1; }
      ghost var w0 := RunOf(START_SECTOR, 1, EncodeSuperblock(superblock));
      FullSlice(EncodeSuperblock(superblock));
      assert w0 == [SectorWrite(START_SECTOR, EncodeSuperblock(superblock))];
      assert drive.log[|log|..] == w0;
      var bytes := TableBytes(fileTable[..], TABLE_SECTORS);
      var remaining, offset := TABLE_SECTORS, 0;
      ghost var mid, logMid := drive.sectors, drive.log;
      while remaining > 0
        invariant remaining == TABLE_SECTORS - offset && (offset == 0 || offset == TABLE_SECTORS)
        invariant Shape() && |drive.sectors| == |img|
        invariant offset == 0 ==> drive.sectors == mid && drive.log == logMid
        invariant offset > 0 ==> drive.log == logMid + TableWrites(Entries())
        invariant offset > 0 ==> drive.sectors == Replay(mid, TableWrites(Entries()))
      {
        var chunk := if remaining > 128 then 128 else remaining;
        assert bytes[offset * SECTOR..] == bytes;
        rc := drive.WriteSectors(TABLE_START + offset, chunk, bytes[offset * SECTOR..]);
        if rc < 0 { return -1; }
        RunOfTable(Entries());
        assert drive.log[|logMid|..] == TableWrites(Entries());
        offset := offset + chunk;
        remaining := remaining - chunk;
      }
      assert drive.log == log + (w0 + TableWrites(Entries()));
      ReplayAppend(img, w0, TableWrites(Entries()));
      return 0;
    }

    method FindSlot(path: seq<byte>) returns (r: int)
      requires fileTable.Length == 256
      ensures r == Find(Entries(), path)
    {
      for i := 0 to 256
        invariant Find(Entries(), path) == FindFrom(Entries(), path, i)
      {
        if fileTable[i].filename[0] == 0 { continue; }
        if Deleted(fileTable[i].flags) { continue; }
        if CStr(fileTable[i].filename) == path { return i; }
      }
      return -1;
    }

    method FindFreeSlot() returns (r: int)
      requires fileTable.Length == 256
      ensures r == FindFree(Entries())
    {
      for i := 0 to 256
        invariant FindFree(Entries()) == FreeFrom(Entries(), i)
      {
        if fileTable[i].filename[0] == 0 || Deleted(fileTable[i].flags) { return i; }
      }
      return -1;
    }

    /** One chunk of the data loop of chaosfs_write: the buffer zeroed, filled and written. */
    method WriteChunk(sector: u32, data: seq<byte>, chunk: nat) returns (r: int)
      requires Shape() && sector + SectorsOf(chunk) <= LBA_LIMIT
      requires 0 < chunk <= 4096 && chunk <= |data| && (chunk == 4096 || chunk == |data|)
      modifies drive`sectors, drive`log, sectorBuf
      ensures Shape() && |drive.sectors| == |old(drive.sectors)|
      ensures r == 0 || r == -1
      ensures r == 0 <==> sector + SectorsOf(chunk) <= |drive.sectors|
      ensures r == 0 ==> drive.log == old(drive.log) + RunOf(sector, SectorsOf(chunk), data)
      ensures r == 0 ==> drive.sectors == Replay(old(drive.sectors), RunOf(sector, SectorsOf(chunk), data))
    {
      hide RunOf, SectorSlice, Replay;
      var sectors := (chunk + 511) / 512;
      forall k | 0 <= k < sectors * 512 { sectorBuf[k] := 0; }
      forall k | 0 <= k < chunk { sectorBuf[k] := data[k]; }
      ghost var log := drive.log;
      r := drive.WriteSectors(sector, sectors, sectorBuf[..]);
      ChunkRun(sector, data, chunk, sectorBuf[..]);
      assert r == 0 ==> drive.log[|log|..] == RunOf(sector, sectors, sectorBuf[..]);
    }

    /** The data loop of chaosfs_write: chunks of at most eight sectors, the last one zero-padded. */
    method WriteData(start: u32, data: seq<byte>) returns (r: int)
      requires Shape() && start + SectorsOf(|data|) <= LBA_LIMIT
      modifies drive`sectors, drive`log, sectorBuf
      ensures Shape() && |drive.sectors| == |old(drive.sectors)|
      ensures r == 0 || r == -1
      ensures r == 0 <==> |data| == 0 || start + SectorsOf(|data|) <= |drive.sectors|
      ensures r == 0 ==> drive.log == old(drive.log) + DataWrites(start, data)
      ensures r == 0 ==> drive.sectors == Replay(old(drive.sectors), DataWrites(start, data))
    {
      hide RunOf, SectorSlice, Replay, SectorsOf;
      SectorsOfStep(0, 0, |data|);
      ghost var img, log := drive.sectors, drive.log;
      StartOfRun(img, start, data);
      var src, remaining, sector := 0, |data|, start;
      while remaining > 0
        invariant 0 <= src <= |data| && remaining == |data| - src && (remaining == 0 || src % 4096 == 0)
        invariant Shape() && |drive.sectors| == |img|
        invariant sector == start + SectorsOf(src) && (src > 0 ==> sector <= |drive.sectors|)
        invariant drive.log == log + RunOf(start, SectorsOf(src), data)
        invariant drive.sectors == Replay(img, RunOf(start, SectorsOf(src), data))
      {
        var chunk := if remaining > 4096 then 4096 else remaining;
        var sectors := SectorsOf(chunk);
        SectorsOfStep(src, chunk, |data|);
        var rc := WriteChunk(sector, data[src..], chunk);
        if rc < 0 { return -1; }
        RunOfExtend(start, SectorsOf(src), sectors, data);
        ReplayAppend(img, RunOf(start, SectorsOf(src), data), RunOf(sector, sectors, data[src..]));
        src := src + chunk;
        remaining := remaining - chunk;
        sector := sector + sectors;
      }
      return 0;
    }

    /** One chunk of the loop of chaosfs_read: sectors into the buffer, bytes out of it. */
    method ReadChunk(sector: u32, chunk: nat, buf: array<byte>, dst: nat) returns (r: int)
      requires Shape() && dst + chunk <= buf.Length && buf != sectorBuf && 0 < chunk <= 4096
      requires sector + SectorsOf(chunk) <= |drive.sectors|
      modifies buf, sectorBuf
      ensures r == 0
      ensures forall k :: 0 <= k < chunk ==> buf[dst + k] == ByteAt(drive.sectors, sector, k)
      ensures forall k :: 0 <= k < buf.Length && !(dst <= k < dst + chunk) ==> buf[k] == old(buf[k])
    {
      hide ByteAt;
      var count := SectorsOf(chunk);
      r := drive.ReadSectors(sector, count, sectorBuf, 0);
      assert r == 0;
      forall k | 0 <= k < chunk ensures sectorBuf[k] == ByteAt(drive.sectors, sector, k) {
        assert sectorBuf[0 + k] == ByteAt(drive.sectors, sector, k);
      }
      forall k | 0 <= k < chunk { buf[dst + k] := sectorBuf[k]; }
    }

    /** The chunk loop of chaosfs_read. */
    method ReadData(start: u32, n: nat, buf: array<byte>) returns (r: int)
      requires Shape() && n <= buf.Length && buf != sectorBuf
      requires start + SectorsOf(n) <= |drive.sectors|
      modifies buf, sectorBuf
      ensures r == 0 && buf[..n] == BytesAt(drive.sectors, start, n) && buf[n..] == old(buf[n..])
    {
      hide SectorsOf, ByteAt;
      SectorsOfStep(0, 0, n);
      var dst, remaining, sector := 0, n, start;
      while remaining > 0
        invariant 0 <= dst <= n && remaining == n - dst && (remaining == 0 || dst % 4096 == 0)
        invariant sector == start + SectorsOf(dst)
        invariant forall k :: 0 <= k < dst ==> buf[k] == ByteAt(drive.sectors, start, k)
        invariant forall k :: n <= k < buf.Length ==> buf[k] == old(buf[k])
      {
        var chunk := if remaining >= 4096 then 4096 else remaining;
        SectorsOfStep(dst, chunk, n);
        var rc := ReadChunk(sector, chunk, buf, dst);
        if rc < 0 { return -1; }
        forall k | dst <= k < dst + chunk ensures buf[k] == ByteAt(drive.sectors, start, k) {
          assert buf[dst + (k - dst)] == ByteAt(drive.sectors, sector, k - dst);
          ByteAtShift(drive.sectors, start, SectorsOf(dst), k - dst);
        }
        dst := dst + chunk;
        remaining := remaining - chunk;
        sector := sector + SectorsOf(chunk);
      }
      return 0;
    }

    /** chaosfs_read. */
    method Read(path: seq<byte>, buf: array<byte>, bufSize: u32) returns (r: int)
      requires Shape() && CString(path) && bufSize <= buf.Length && buf != sectorBuf
      requires mounted ==> Valid()
      modifies buf, sectorBuf
      ensures !mounted ==> r == -1
      ensures mounted ==>
        match Lookup(drive.sectors, superblock, Entries(), path)
        case None => r == -1 && buf[..] == old(buf[..])
        case Some(f) => r == Min(|f.data|, bufSize) && buf[..r] == f.data[..r] && buf[r..] == old(buf[r..])
    {
      if !mounted { return -1; }
      var idx := FindSlot(path);
      if idx < 0 { return -1; }
      var entry := fileTable[idx];
      assert entry == Entries()[idx];
      var toRead := if entry.size > bufSize then bufSize else entry.size;
      ExtentInRange(drive.sectors, superblock, Entries(), idx);
      var rc := ReadData(DataSector(superblock, entry), toRead, buf);
      if rc < 0 { return -1; }
      return toRead;
    }

    /** The effect of a plan on the mounted state. */
    twostate predicate Did(p: Plan, r: int)
      reads this, drive, fileTable
    {
      fileTable.Length == 256 &&
      match p
      case Refuse =>
        r == -1 && superblock == old(superblock) && fileTable[..] == old(fileTable[..])
        && drive.sectors == old(drive.sectors) && drive.log == old(drive.log)
      case Commit(sb, t, _, ws) =>
        r == 0 && superblock == sb && Entries() == t
        && drive.sectors == Replay(old(drive.sectors), ws) && drive.log == old(drive.log) + ws
    }

    /** The branch of chaosfs_write that overwrites in place. */
    method Overwrite(path: seq<byte>, idx: nat, data: seq<byte>) returns (r: int)
      requires Valid() && |data| + BLOCK <= WORD && InPlace(Entries(), path, |data|)
      requires idx == Find(Entries(), path)
      modifies fileTable, sectorBuf, drive`sectors, drive`log
      ensures Shape() && Did(old(OverwritePlan(superblock, Entries(), path, data)), r)
    {
      hide EncodeSuperblock, DecodeSuperblock, EncodeFour, SlotOf, Le32, FromLe32, SuperblockOf, EntryOf, TableOf, TableWrites, RunOf, Replay, SectorSlice, FileName, CStr, SyncWrites;
      ghost var t, img := Entries(), drive.sectors;
      OverwriteInRange(img, superblock, t, idx, |data|);
      fileTable[idx] := fileTable[idx].(size := |data|);
      ghost var t' := t[idx := t[idx].(size := |data|)];
      assert Entries() == t';
      var sector := DataSector(superblock, fileTable[idx]);
      r := WriteData(sector, data);
      if r < 0 { return -1; }
      r := Sync();
      ReplayAppend(img, DataWrites(sector, data), SyncWrites(superblock, t'));
    }

    /** The branch of chaosfs_write that allocates fresh blocks. `t` is the table before
        the old entry, if any, was marked deleted. */
    method Place(path: seq<byte>, data: seq<byte>, needed: u32, ghost t: Table) returns (r: int)
      requires Shape() && CString(path) && |data| + BLOCK <= WORD && needed == BlocksFor(|data|)
      requires Geometry(superblock, |drive.sectors|) && Entries() == Erase(t, Find(t, path))
      modifies this`superblock, fileTable, sectorBuf, drive`sectors, drive`log
      ensures Shape()
      ensures FindFree(old(Entries())) < 0 ==>
        r == -1 && superblock == old(superblock) && fileTable[..] == old(fileTable[..])
        && drive.sectors == old(drive.sectors) && drive.log == old(drive.log)
      ensures FindFree(old(Entries())) >= 0 ==>
        var p := PlacePlan(old(superblock), t, path, data);
        superblock == p.sb && Entries() == p.table && (r == 0 || r == -1)
      ensures FindFree(old(Entries())) >= 0 && old(superblock.nextFree) + needed <= superblock.totalBlocks ==>
        var p := PlacePlan(old(superblock), t, path, data);
        r == 0 && drive.sectors == Replay(old(drive.sectors), p.writes) && drive.log == old(drive.log) + p.writes
    {
      hide EncodeSuperblock, DecodeSuperblock, EncodeFour, SlotOf, Le32, FromLe32, SuperblockOf, EntryOf, TableOf, TableWrites, RunOf, Replay, SectorSlice, FileName, CStr, SyncWrites, BytesAt, Find, FindFree, Erase, BlocksFor;
      ghost var img, sb := drive.sectors, superblock;
      var idx := FindFreeSlot();
      if idx < 0 { return -1; }
      var e := NewEntry(path, |data|, superblock.nextFree, needed, 0);
      fileTable[idx] := e;
      superblock := superblock.(nextFree := (superblock.nextFree + needed) % WORD);
      superblock := superblock.(fileCount := (superblock.fileCount + 1) % WORD);
      ghost var p := PlacePlan(sb, t, path, data);
      assert Entries() == p.table;
      var sector := DataSector(superblock, e);
      NewExtentInRange(sb, |img|, |data|);
      r := WriteData(sector, data);
      if r < 0 { return -1; }
      r := Sync();
      ReplayAppend(img, DataWrites(sector, data), SyncWrites(p.sb, p.table));
    }

    /** chaosfs_write. When there is no room the source can fail after the table in
        memory already shows the file. */
    method Write(path: seq<byte>, data: seq<byte>) returns (r: int)
      requires Shape() && CString(path) && |data| + BLOCK <= WORD
      requires mounted ==> Valid()
      modifies this`superblock, fileTable, sectorBuf, drive`sectors, drive`log
      ensures Shape()
      ensures !mounted ==> r == -1
      ensures old(mounted && Room(superblock, Entries(), path, |data|)) ==>
        Did(old(WritePlan(superblock, Entries(), path, data)), r)
      ensures old(mounted) && old(WritePlan(superblock, Entries(), path, data)).Commit? ==>
        superblock == old(WritePlan(superblock, Entries(), path, data)).sb
        && Entries() == old(WritePlan(superblock, Entries(), path, data)).table
    {
      hide EncodeSuperblock, DecodeSuperblock, EncodeFour, SlotOf, Le32, FromLe32, SuperblockOf, EntryOf, TableOf, TableWrites, RunOf, Replay, SectorSlice, FileName, CStr, SyncWrites;
      if !mounted { return -1; }
      ghost var t := Entries();
      var idx := FindSlot(path);
      var needed: u32 := (|data| + BLOCK - 1) % WORD / BLOCK;
      if needed == 0 { needed := 1; }
      if idx >= 0 {
        if needed <= fileTable[idx].blockCount {
          r := Overwrite(path, idx, data);
          return r;
        }
        fileTable[idx] := fileTable[idx].(flags := WithDeleted(fileTable[idx].flags));
      }
      assert Entries() == Erase(t, idx);
      r := Place(path, data, needed, t);
    }

    method Delete(path: seq<byte>) returns (r: int)
      requires Shape() && CString(path)
      requires mounted ==> Valid()
      modifies this`superblock, fileTable, drive`sectors, drive`log
      ensures Shape()
      ensures !mounted ==> r == -1
      ensures old(mounted) ==> Did(old(DeletePlan(superblock, Entries(), path)), r)
    {
      hide EncodeSuperblock, DecodeSuperblock, EncodeFour, SlotOf, Le32, FromLe32, SuperblockOf, EntryOf, TableOf, TableWrites, RunOf, Replay, SectorSlice, FileName, CStr, SyncWrites;
      if !mounted { return -1; }
      ghost var t := Entries();
      var idx := FindSlot(path);
      if idx < 0 { return -1; }
      fileTable[idx] := fileTable[idx].(flags := WithDeleted(fileTable[idx].flags));
      assert Entries() == Erase(t, idx);
      superblock := superblock.(fileCount := (superblock.fileCount - 1) % WORD);
      r := Sync();
    }

    method Stat(path: seq<byte>) returns (r: int, size: u32, flags: byte)
      requires Shape() && CString(path)
      requires mounted ==> Valid()
      ensures !mounted ==> r == -1
      ensures mounted ==>
        match Lookup(drive.sectors, superblock, Entries(), path)
        case None => r == -1
        case Some(f) => r == 0 && size == |f.data| && flags == f.flags
    {
      size, flags := 0, 0;
      if !mounted { return -1, size, flags; }
      var idx := FindSlot(path);
      if idx < 0 { return -1, size, flags; }
      return 0, fileTable[idx].size, fileTable[idx].flags;
    }

    method Mkdir(path: seq<byte>) returns (r: int)
      requires Shape() && CString(path)
      requires mounted ==> Valid()
      modifies this`superblock, fileTable, drive`sectors, drive`log
      ensures Shape()
      ensures !mounted ==> r == -1
      ensures old(mounted && Find(Entries(), path) >= 0) ==>
        r == 0 && superblock == old(superblock) && fileTable[..] == old(fileTable[..])
        && drive.sectors == old(drive.sectors) && drive.log == old(drive.log)
      ensures old(mounted && Find(Entries(), path) < 0) ==>
        Did(old(MkdirPlan(superblock, Entries(), path)), r)
    {
      hide EncodeSuperblock, DecodeSuperblock, EncodeFour, SlotOf, Le32, FromLe32, SuperblockOf, EntryOf, TableOf, TableWrites, RunOf, Replay, SectorSlice, FileName, CStr, SyncWrites, Find, FindFree, TableOk;
      if !mounted { return -1; }
      ghost var t := Entries();
      var found := FindSlot(path);
      if found >= 0 { return 0; }
      var idx := FindFreeSlot();
      if idx < 0 { return -1; }
      fileTable[idx] := NewEntry(path, 0, 0, 0, FLAG_DIR);
      assert Entries() == t[idx := NewEntry(path, 0, 0, 0, FLAG_DIR)];
      superblock := superblock.(fileCount := (superblock.fileCount + 1) % WORD);
      r := Sync();
    }
  }
}
