/** tools/mkchaosfs.py: the host tool that formats a volume and adds files, working on
    the image as one flat file. It writes the layout the kernel mounts. */
module MkChaosFs {
  import opened Base
  import opened ChaosLayout
  import opened Drive
  import opened ChaosSpec
  import opened ChaosCrash
  import opened ChaosMap

  const SUPER_AT: int := START_SECTOR * SECTOR
  const TABLE_AT: int := TABLE_START * SECTOR
  const DATA_START: int := TABLE_START + TABLE_SECTORS

  /** The sectors of a flat image; a partial last sector is not one. */
  ghost function SectorsIn(b: seq<byte>): (img: Image)
    ensures |img| == |b| / SECTOR
  {
    seq(|b| / SECTOR, i requires 0 <= i < |b| / SECTOR => b[SECTOR * i..SECTOR * i + SECTOR])
  }

  /** `data` written at offset `off`, as a seek and a write leave it. */
  function Splice(b: seq<byte>, off: nat, data: seq<byte>): (r: seq<byte>)
    requires off <= |b|
    ensures |r| == Max(|b|, off + |data|)
    ensures forall i :: 0 <= i < |r| ==> r[i] == if off <= i < off + |data| then data[i - off] else b[i]
  {
    b[..off] + data + if off + |data| <= |b| then b[off + |data|..] else []
  }

  lemma FlatSuperblock(b: seq<byte>)
    requires |b| >= SUPER_AT + SECTOR
    ensures SuperblockOf(SectorsIn(b)) == DecodeSuperblock(b[SUPER_AT..SUPER_AT + SECTOR])
  {
    assert SectorsIn(b)[START_SECTOR] == b[SUPER_AT..SUPER_AT + SECTOR];
  }

  lemma FlatEntry(b: seq<byte>, i: nat)
    requires |b| >= DATA_START * SECTOR && i < 256
    ensures EntryOf(SectorsIn(b), i) == DecodeEntry(b[TABLE_AT + 128 * i..TABLE_AT + 128 * i + 128])
  {
    hide DecodeEntry;
    var s := SectorsIn(b)[TABLE_START + i / 4];
    var k := i % 4;
    assert TABLE_AT + 128 * i == SECTOR * (TABLE_START + i / 4) + 128 * k;
    var p := SECTOR * (TABLE_START + i / 4);
    assert s == b[p..p + SECTOR];
    SliceOfSlice(b, p, SECTOR, 128 * k, 128 * k + 128);
  }

  lemma FlatBytes(b: seq<byte>, s: nat, n: nat)
    requires s + SectorsOf(n) <= |b| / SECTOR
    ensures SECTOR * s + n <= |b| && BytesAt(SectorsIn(b), s, n) == b[SECTOR * s..SECTOR * s + n]
  {
    forall i | 0 <= i < n ensures ByteAt(SectorsIn(b), s, i) == b[SECTOR * s + i] {
      assert i / SECTOR < SectorsOf(n);
      assert SECTOR * (s + i / SECTOR) + i % SECTOR == SECTOR * s + i;
      assert SectorsIn(b)[s + i / SECTOR] == b[SECTOR * (s + i / SECTOR)..SECTOR * (s + i / SECTOR) + SECTOR];
    }
  }

  /** Rewriting one entry changes that entry only. */
  lemma SpliceEntry(b: seq<byte>, idx: nat, e: Entry)
    requires |b| >= DATA_START * SECTOR && idx < 256
    ensures var b' := Splice(b, TABLE_AT + 128 * idx, EncodeEntry(e));
      && |b'| == |b| && TableOf(SectorsIn(b')) == TableOf(SectorsIn(b))[idx := e]
      && SuperblockOf(SectorsIn(b')) == SuperblockOf(SectorsIn(b))
  {
    hide EncodeEntry, DecodeEntry, DecodeSuperblock, SectorsIn, EntryOf, SuperblockOf;
    var b' := Splice(b, TABLE_AT + 128 * idx, EncodeEntry(e));
    FlatSuperblock(b);
    FlatSuperblock(b');
    assert b'[SUPER_AT..SUPER_AT + SECTOR] == b[SUPER_AT..SUPER_AT + SECTOR];
    var t, t' := TableOf(SectorsIn(b)), TableOf(SectorsIn(b'));
    forall i | 0 <= i < 256 ensures t'[i] == t[idx := e][i] {
      FlatEntry(b, i);
      FlatEntry(b', i);
      if i == idx {
        assert b'[TABLE_AT + 128 * i..TABLE_AT + 128 * i + 128] == EncodeEntry(e);
        EntryRoundTrip(e);
      } else {
        assert b'[TABLE_AT + 128 * i..TABLE_AT + 128 * i + 128] == b[TABLE_AT + 128 * i..TABLE_AT + 128 * i + 128];
      }
    }
    assert t' == t[idx := e];
  }

  lemma SpliceSuperblock(b: seq<byte>, sb: Superblock)
    requires |b| >= DATA_START * SECTOR
    ensures var b' := Splice(b, SUPER_AT, EncodeSuperblock(sb));
      && |b'| == |b| && TableOf(SectorsIn(b')) == TableOf(SectorsIn(b)) && SuperblockOf(SectorsIn(b')) == sb
  {
    hide EncodeSuperblock, DecodeEntry, DecodeSuperblock, SectorsIn, EntryOf, SuperblockOf;
    var b' := Splice(b, SUPER_AT, EncodeSuperblock(sb));
    FlatSuperblock(b');
    SuperblockRoundTrip(sb);
    assert b'[SUPER_AT..SUPER_AT + SECTOR] == EncodeSuperblock(sb);
    SameTable(b, b');
  }

  lemma SameTable(b: seq<byte>, b': seq<byte>)
    requires |b| >= DATA_START * SECTOR && |b'| >= DATA_START * SECTOR
    requires forall i :: TABLE_AT <= i < DATA_START * SECTOR ==> b'[i] == b[i]
    ensures TableOf(SectorsIn(b')) == TableOf(SectorsIn(b))
  {
    hide DecodeEntry, SectorsIn, EntryOf;
    forall i | 0 <= i < 256 ensures EntryOf(SectorsIn(b'), i) == EntryOf(SectorsIn(b), i) {
      FlatEntry(b, i);
      FlatEntry(b', i);
      assert b'[TABLE_AT + 128 * i..TABLE_AT + 128 * i + 128] == b[TABLE_AT + 128 * i..TABLE_AT + 128 * i + 128];
    }
  }

  lemma SpliceData(b: seq<byte>, off: nat, data: seq<byte>)
    requires DATA_START * SECTOR <= off && off + |data| <= |b|
    ensures var b' := Splice(b, off, data);
      && |b'| == |b| && TableOf(SectorsIn(b')) == TableOf(SectorsIn(b))
      && SuperblockOf(SectorsIn(b')) == SuperblockOf(SectorsIn(b))
  {
    hide DecodeSuperblock, SectorsIn, TableOf;
    var b' := Splice(b, off, data);
    FlatSuperblock(b);
    FlatSuperblock(b');
    assert b'[SUPER_AT..SUPER_AT + SECTOR] == b[SUPER_AT..SUPER_AT + SECTOR];
    SameTable(b, b');
  }

  /** The volume on a flat image. */
  ghost predicate SoundImage(b: seq<byte>)
  {
    |b| >= DATA_START * SECTOR && Sound(SectorsIn(b), SuperblockOf(SectorsIn(b)), TableOf(SectorsIn(b)))
  }

  ghost function ImageMap(b: seq<byte>): Volume
    requires SoundImage(b)
  {
    Abs(SectorsIn(b), SuperblockOf(SectorsIn(b)), TableOf(SectorsIn(b)))
  }

  function Zeros(n: nat): (s: seq<byte>)
    ensures |s| == n
  {
    seq(n, i => 0)
  }

  lemma EmptyTable(b: seq<byte>)
    requires |b| >= DATA_START * SECTOR && b[TABLE_AT..DATA_START * SECTOR] == Zeros(MAX_FILES * 128)
    ensures forall i :: 0 <= i < 256 ==> !Live(TableOf(SectorsIn(b))[i])
  {
    hide SectorsIn, EntryOf;
    forall i | 0 <= i < 256 ensures !Live(TableOf(SectorsIn(b))[i]) {
      FlatEntry(b, i);
      assert b[TABLE_AT + 128 * i] == b[TABLE_AT..DATA_START * SECTOR][128 * i];
    }
  }

  /** The entry as write_entry stores it. */
  function Canonical(e: Entry): (c: Entry)
    ensures c.flags == e.flags && c.size == e.size && c.startBlock == e.startBlock && c.blockCount == e.blockCount
  {
    e.(filename := FileNamePadded(CStr(e.filename)), reserved := Zeros(7))
  }

  function FileNamePadded(name: seq<byte>): Bytes108 {
    seq(108, i requires 0 <= i < 108 => if i < |name| then name[i] else 0)
  }

  /** The stored name is the name, cut off or padded after its NUL. */
  lemma CanonicalName(e: Entry)
    ensures Name(Canonical(e)) == Name(e) && (Live(Canonical(e)) <==> Live(e))
  {
    var n := CStr(e.filename);
    assert n == FileNamePadded(n)[..|n|];
    CStrUnique(FileNamePadded(n), n);
    assert n == [] <==> e.filename[0] == 0;
  }

  lemma CanonicalNew(path: Path, size: u32, start: u32, count: u32)
    requires GoodPath(path)
    ensures Canonical(NewEntry(path, size, start, count, 0)) == NewEntry(path, size, start, count, 0)
  {
    NameOfFileName(path);
    assert path[..|path|] == path;
    assert FileNamePadded(path) == FileName(path);
    assert Zeros(7) == seq(7, i => 0);
  }

  lemma NonEmptyName(e: Entry, path: Path)
    requires CStr(e.filename) == path && |path| > 0
    ensures e.filename[0] != 0
  {
  }

  lemma FindSkips(t: Table, path: Path, i: nat)
    requires i < 256 && !Matches(t[i], path)
    ensures FindFrom(t, path, i) == FindFrom(t, path, i + 1)
  {
  }

  lemma NothingToDrop(m: map<Path, File>, path: Path)
    requires path !in m
    ensures m - {path} == m
  {
  }

  lemma DroppedSize(m: map<Path, File>, path: Path)
    ensures |m - {path}| == if path in m then |m| - 1 else |m|
  {
    assert (m - {path}).Keys == m.Keys - {path};
  }

  /** A new extent, padded to whole blocks, lies in the file. */
  lemma ExtentInFile(sb: Superblock, n: nat, size: nat)
    requires Geometry(sb, n / SECTOR) && size + BLOCK <= WORD && sb.nextFree + BlocksFor(size) <= sb.totalBlocks
    ensures var off := sb.dataStart * SECTOR + sb.nextFree * BLOCK;
      && DATA_START * SECTOR <= off
      && off + size <= n
      && (size % BLOCK != 0 ==> off + size + (BLOCK - size % BLOCK) <= n)
  {
    assert size % BLOCK != 0 ==> size + (BLOCK - size % BLOCK) == BlocksFor(size) * BLOCK;
    assert size <= BlocksFor(size) * BLOCK;
  }

  lemma SpliceLow(b: seq<byte>, off: nat, data: seq<byte>)
    requires off + |data| <= DATA_START * SECTOR <= |b|
    ensures forall k :: DATA_START * SECTOR <= k < |b| ==> Splice(b, off, data)[k] == b[k]
  {
  }

  lemma SameHigh(b: seq<byte>, b': seq<byte>, lo: nat, hi: nat)
    requires |b'| == |b| && DATA_START * SECTOR <= lo <= hi <= |b|
    requires forall k :: DATA_START * SECTOR <= k < |b| ==> b'[k] == b[k]
    ensures b'[lo..hi] == b[lo..hi]
  {
  }

  lemma SpliceAt(b: seq<byte>, off: nat, data: seq<byte>)
    requires off + |data| <= |b|
    ensures Splice(b, off, data)[..off] == b[..off]
    ensures Splice(b, off, data)[off..off + |data|] == data
  {
  }

  lemma SpliceBefore(b: seq<byte>, off: nat, data: seq<byte>, lo: nat, hi: nat)
    requires lo <= hi <= off <= |b|
    ensures Splice(b, off, data)[lo..hi] == b[lo..hi]
  {
  }

  lemma AtMostFull(b: seq<byte>)
    requires SoundImage(b)
    ensures |ImageMap(b).files| <= MAX_FILES
  {
    AbsFull(SectorsIn(b), SuperblockOf(SectorsIn(b)), TableOf(SectorsIn(b)));
  }

  /** An image in which one live slot of the path has been replaced by a dead one. */
  lemma DropAbs(b: seq<byte>, b': seq<byte>, path: Path, i: nat, e: Entry)
    requires SoundImage(b) && |b'| == |b| && GoodPath(path)
    requires i == Find(TableOf(SectorsIn(b)), path) && !Live(e)
    requires TableOf(SectorsIn(b')) == TableOf(SectorsIn(b))[i := e]
    requires SuperblockOf(SectorsIn(b')) == SuperblockOf(SectorsIn(b))
    requires forall k :: DATA_START * SECTOR <= k < |b| ==> b'[k] == b[k]
    ensures SoundImage(b') && ImageMap(b') == ImageMap(b).(files := ImageMap(b).files - {path})
  {
    hide SectorsIn, CStr, TableOf, SuperblockOf, TableOk, Abs, Find, BytesAt, EntryOk;
    var img, img' := SectorsIn(b), SectorsIn(b');
    var sb, t, t' := SuperblockOf(img), TableOf(img), TableOf(img');
    DeadEntryOk(sb, e);
    InsertOk(sb, t, sb, i, e);
    SameDataSectors(b, b');
    OnlyMatch(sb, t, path);
    var m := Abs(img, sb, t).files;
    forall q ensures Lookup(img', sb, t', q) == if q in m - {path} then Some((m - {path})[q]) else None {
      AbsLookup(img, sb, t, q);
      if q != path {
        SameLookup(img, sb, t, img', sb, t', q);
      } else {
        NoMatch(t', path);
      }
    }
    AbsIs(img', sb, t', m - {path});
    AbsCounters(img, sb, t);
    AbsCounters(img', sb, t');
  }

  lemma NoMatch(t: Table, path: Path)
    requires forall i :: 0 <= i < 256 ==> !Matches(t[i], path)
    ensures Find(t, path) == -1
  {
  }

  lemma DeadEntryOk(sb: Superblock, e: Entry)
    requires !Live(e)
    ensures EntryOk(sb, e)
  {
  }

  lemma SameDataSectors(b: seq<byte>, b': seq<byte>)
    requires |b| == |b'| && forall k :: DATA_START * SECTOR <= k < |b| ==> b'[k] == b[k]
    ensures forall j :: DATA_START <= j < |SectorsIn(b)| ==> SectorsIn(b')[j] == SectorsIn(b)[j]
  {
    forall j | DATA_START <= j < |SectorsIn(b)| ensures SectorsIn(b')[j] == SectorsIn(b)[j] {
      assert b'[SECTOR * j..SECTOR * j + SECTOR] == b[SECTOR * j..SECTOR * j + SECTOR];
    }
  }

  /** The image cmd_add leaves, from the image in which the path is not live. */
  lemma AddAbs(b: seq<byte>, b': seq<byte>, path: Path, data: seq<byte>, j: nat)
    requires SoundImage(b) && |b'| == |b| && GoodPath(path) && |data| + BLOCK <= WORD
    requires var sb, t := SuperblockOf(SectorsIn(b)), TableOf(SectorsIn(b));
      && Find(t, path) < 0 && j == FindFree(t) && sb.nextFree + BlocksFor(|data|) <= sb.totalBlocks
      && TableOf(SectorsIn(b')) == t[j := NewEntry(path, |data|, sb.nextFree, BlocksFor(|data|), 0)]
      && SuperblockOf(SectorsIn(b')) == sb.(nextFree := sb.nextFree + BlocksFor(|data|),
                                             fileCount := (sb.fileCount + 1) % WORD, rest := Zeros(476))
      && var off := sb.dataStart * SECTOR + sb.nextFree * BLOCK;
         DATA_START * SECTOR <= off && off + |data| <= |b| && b'[off..off + |data|] == data
         && b'[DATA_START * SECTOR..off] == b[DATA_START * SECTOR..off]
    ensures SoundImage(b')
    ensures ImageMap(b') == ImageMap(b).(files := ImageMap(b).files[path := File(0, data, BlocksFor(|data|))],
                                         next := ImageMap(b).next + BlocksFor(|data|))
  {
    hide SectorsIn, CStr, TableOf, SuperblockOf, TableOk, Abs, Find, FindFree, BytesAt, EntryOk, FileName, BlocksFor, DataSector;
    var img, img' := SectorsIn(b), SectorsIn(b');
    var sb, t, sb', t' := SuperblockOf(img), TableOf(img), SuperblockOf(img'), TableOf(img');
    var n := BlocksFor(|data|);
    var e := NewEntry(path, |data|, sb.nextFree, n, 0);
    var f := File(0, data, n);
    forall q ensures Matches(e, q) <==> q == path {
      NewEntryMatches(path, |data|, sb.nextFree, n, 0, q);
    }
    NewEntryOkSize(|data|);
    NewEntryOk(sb', path, |data|, sb.nextFree, n, 0);
    OnlyMatch(sb, t, path);
    NewIsApart(sb, t, e, path);
    InsertOk(sb, t, sb', j, e);
    NewExtentInRange(sb, |img|, |data|);
    NewEntrySector(sb, |img|, path, |data|);
    assert DataSector(sb', e) == sb.dataStart + 8 * sb.nextFree;
    FlatBytes(b', sb.dataStart + 8 * sb.nextFree, |data|);
    SameLowSectors(b, b', sb.dataStart + 8 * sb.nextFree);
    var m := Abs(img, sb, t).files;
    forall q ensures Lookup(img', sb', t', q) == if q in m[path := f] then Some(m[path := f][q]) else None {
      AbsLookup(img, sb, t, q);
      InsertedLookup(sb, t, path, j, e, q);
      if q != path {
        SameLookup(img, sb, t, img', sb', t', q);
      }
    }
    AbsIs(img', sb', t', m[path := f]);
    AbsCounters(img, sb, t);
    AbsCounters(img', sb', t');
  }

  /** Lookups in a table with a new entry in a slot that was not live. */
  lemma InsertedLookup(sb: Superblock, t: Table, path: Path, j: nat, e: Entry, q: Path)
    requires TableOk(sb, t) && Find(t, path) < 0 && j < 256 && !Live(t[j]) && forall p :: Matches(e, p) <==> p == path
    ensures var u := t[j := e];
      && (q != path ==> forall i :: 0 <= i < 256 ==> Matches(u[i], q) == Matches(t[i], q))
      && (q != path ==> forall i :: 0 <= i < 256 && Matches(t[i], q) ==> u[i] == t[i])
      && Find(u, path) == j
  {
    hide CStr, TableOk, Find, Mixed;
    OnlyMatch(sb, t, path);
    MixedFind(t, path, -1, j, e, 256, q);
    MixedOneSlot(t, j, e, 256);
  }

  /** A new entry above the allocation mark is apart from every live one. */
  lemma NewIsApart(sb: Superblock, t: Table, e: Entry, path: Path)
    requires TableOk(sb, t) && e.startBlock == sb.nextFree && Find(t, path) < 0 && Matches(e, path)
    ensures forall i :: 0 <= i < 256 && Live(t[i]) ==> Disjoint(t[i], e) && Name(t[i]) != Name(e)
  {
    hide CStr;
    forall i | 0 <= i < 256 && Live(t[i]) ensures Disjoint(t[i], e) && Name(t[i]) != Name(e) {
      assert EntryOk(sb, t[i]);
      assert !Matches(t[i], path);
    }
  }

  lemma SameLowSectors(b: seq<byte>, b': seq<byte>, s: nat)
    requires |b| == |b'| && DATA_START <= s <= |b| / SECTOR
    requires b'[DATA_START * SECTOR..SECTOR * s] == b[DATA_START * SECTOR..SECTOR * s]
    ensures forall j :: DATA_START <= j < s ==> SectorsIn(b')[j] == SectorsIn(b)[j]
  {
    var lo := DATA_START * SECTOR;
    forall j | DATA_START <= j < s ensures SectorsIn(b')[j] == SectorsIn(b)[j] {
      assert forall k :: SECTOR * j <= k < SECTOR * j + SECTOR ==> b'[k] == b'[lo..SECTOR * s][k - lo] == b[lo..SECTOR * s][k - lo] == b[k];
      assert b'[SECTOR * j..SECTOR * j + SECTOR] == b[SECTOR * j..SECTOR * j + SECTOR];
    }
  }

  class ImageFile {
    var bytes: seq<byte>

    constructor (b: seq<byte>)
      ensures bytes == b
    {
      bytes := b;
    }

    method WriteAt(off: nat, data: seq<byte>)
      requires off <= |bytes|
      modifies this
      ensures bytes == Splice(old(bytes), off, data)
    {
      bytes := Splice(bytes, off, data);
    }

    /** cmd_format: an image long enough for the metadata becomes an empty volume. */
    method Format()
      requires DATA_START * SECTOR <= |bytes| && |bytes| / SECTOR <= MAX_DRIVE && |bytes| / SECTOR / 8 < 0x10_0000
      modifies this
      ensures |bytes| == |old(bytes)| && SoundImage(bytes)
      ensures ImageMap(bytes) == Volume(map[], 0, (|bytes| / SECTOR - DATA_START) / 8)
    {
      hide EncodeSuperblock, DecodeSuperblock, DecodeEntry, CStr, Splice, Zeros;
      ghost var b0 := bytes;
      var dataSectors := |bytes| / SECTOR - DATA_START;
      var totalBlocks := dataSectors * SECTOR / BLOCK;
      var sb := Superblock(MAGIC, VERSION, BLOCK, totalBlocks, 0, MAX_FILES, DATA_START, 0, Zeros(476));
      WriteAt(SUPER_AT, EncodeSuperblock(sb));
      ghost var b1 := bytes;
      WriteAt(TABLE_AT, Zeros(MAX_FILES * 128));
      SpliceAt(b0, SUPER_AT, EncodeSuperblock(sb));
      SpliceAt(b1, TABLE_AT, Zeros(MAX_FILES * 128));
      SpliceBefore(b1, TABLE_AT, Zeros(MAX_FILES * 128), SUPER_AT, TABLE_AT);
      FlatSuperblock(bytes);
      SuperblockRoundTrip(sb);
      assert bytes[SUPER_AT..SUPER_AT + SECTOR] == EncodeSuperblock(sb);
      assert bytes[TABLE_AT..DATA_START * SECTOR] == Zeros(MAX_FILES * 128);
      EmptyTable(bytes);
    }

    /** read_superblock and read_entries, as the kernel decodes them. */
    method ReadTable() returns (sb: Superblock, t: Table)
      requires SoundImage(bytes)
      ensures sb == SuperblockOf(SectorsIn(bytes)) && t == TableOf(SectorsIn(bytes))
    {
      hide DecodeEntry, DecodeSuperblock, SectorsIn, EntryOf, SuperblockOf;
      FlatSuperblock(bytes);
      sb := DecodeSuperblock(bytes[SUPER_AT..SUPER_AT + SECTOR]);
      forall i | 0 <= i < 256
        ensures EntryOf(SectorsIn(bytes), i) == DecodeEntry(bytes[TABLE_AT + 128 * i..TABLE_AT + 128 * i + 128])
      {
        FlatEntry(bytes, i);
      }
      var b := bytes;
      t := seq(256, i requires 0 <= i < 256 && |b| >= DATA_START * SECTOR =>
        DecodeEntry(b[TABLE_AT + 128 * i..TABLE_AT + 128 * i + 128]));
    }

    /** write_entry: the kernel then reads in that slot an entry of the same name, extent, size and flags, and everything
        else as before. */
    method WriteEntry(idx: nat, e: Entry)
      requires idx < 256 && DATA_START * SECTOR <= |bytes|
      modifies this
      ensures |bytes| == |old(bytes)| && TableOf(SectorsIn(bytes)) == TableOf(SectorsIn(old(bytes)))[idx := Canonical(e)]
      ensures SuperblockOf(SectorsIn(bytes)) == SuperblockOf(SectorsIn(old(bytes)))
      ensures Name(Canonical(e)) == Name(e) && (Live(Canonical(e)) <==> Live(e))
      ensures forall k :: 0 <= k < |bytes| && !(TABLE_AT + 128 * idx <= k < TABLE_AT + 128 * idx + 128) ==> bytes[k] == old(bytes)[k]
    {
      hide EncodeEntry, SectorsIn, TableOf, SuperblockOf, Canonical, Name, Live;
      CanonicalName(e);
      SpliceEntry(bytes, idx, Canonical(e));
      WriteAt(TABLE_AT + 128 * idx, EncodeEntry(Canonical(e)));
    }

    /** cmd_delete: the first live entry of the path, if any, is marked deleted. */
    method Remove(path: Path) returns (found: bool)
      requires SoundImage(bytes) && GoodPath(path)
      modifies this
      ensures SoundImage(bytes) && |bytes| == |old(bytes)|
      ensures found <==> path in old(ImageMap(bytes)).files
      ensures ImageMap(bytes) == old(ImageMap(bytes)).(files := old(ImageMap(bytes)).files - {path})
    {
      hide EncodeEntry, DecodeEntry, SectorsIn, CStr, TableOf, SuperblockOf, TableOk, Splice, Abs, Find;
      var sb, t := ReadTable();
      AbsLookup(SectorsIn(bytes), sb, t, path);
      for i := 0 to 256
        invariant bytes == old(bytes)
        invariant Find(t, path) == FindFrom(t, path, i)
      {
        if CStr(t[i].filename) == path && !Deleted(t[i].flags) {
          assert t[i].filename[0] != 0 by { NonEmptyName(t[i], path); }
          var e := t[i].(flags := WithDeleted(t[i].flags));
          WriteEntry(i, e);
          DropAbs(old(bytes), bytes, path, i, Canonical(e));
          return true;
        }
        FindSkips(t, path, i);
      }
      NothingToDrop(ImageMap(bytes).files, path);
      return false;
    }

    /** The data of cmd_add and the zeros that fill up its last block. */
    method WriteExtent(off: nat, data: seq<byte>)
      requires DATA_START * SECTOR <= off && off + |data| + (BLOCK - |data| % BLOCK) % BLOCK <= |bytes|
      modifies this
      ensures |bytes| == |old(bytes)| && bytes[off..off + |data|] == data && bytes[..off] == old(bytes)[..off]
      ensures TableOf(SectorsIn(bytes)) == TableOf(SectorsIn(old(bytes))) && SuperblockOf(SectorsIn(bytes)) == SuperblockOf(SectorsIn(old(bytes)))
    {
      hide SectorsIn, TableOf, SuperblockOf, Splice, Zeros;
      ghost var b0 := bytes;
      WriteAt(off, data);
      SpliceData(b0, off, data);
      SpliceAt(b0, off, data);
      ghost var b1 := bytes;
      var remainder := BLOCK - |data| % BLOCK;
      if remainder < BLOCK {
        WriteAt(off + |data|, Zeros(remainder));
        SpliceData(b1, off + |data|, Zeros(remainder));
        SpliceBefore(b1, off + |data|, Zeros(remainder), off, off + |data|);
        SpliceBefore(b1, off + |data|, Zeros(remainder), 0, off);
      }
    }

    /** The body of cmd_add once the old file is gone: the data and its padding, an entry in
        the lowest free slot, then the superblock. */
    method Insert(path: Path, data: seq<byte>)
      requires SoundImage(bytes) && GoodPath(path) && path !in ImageMap(bytes).files
      requires |data| + BLOCK <= WORD && ImageMap(bytes).next + Blocks(|data|) <= ImageMap(bytes).total
      modifies this
      ensures SoundImage(bytes) && |bytes| == |old(bytes)|
      ensures var v := old(ImageMap(bytes));
        ImageMap(bytes) == if |v.files| >= MAX_FILES then v
          else v.(files := v.files[path := File(0, data, Blocks(|data|))], next := v.next + Blocks(|data|))
    {
      hide EncodeEntry, DecodeEntry, EncodeSuperblock, SectorsIn, CStr, TableOf, SuperblockOf, TableOk, Splice, Abs, Find, FindFree,
        FileName, BlocksFor, Blocks, SectorsOf, Lookup, Zeros;
      BlocksForIs(|data|);
      var sb, t := ReadTable();
      ghost var b0 := bytes;
      AbsCounters(SectorsIn(b0), sb, t);
      AbsLookup(SectorsIn(b0), sb, t, path);
      AbsFull(SectorsIn(b0), sb, t);
      var idx := FindFree(t);
      if idx < 0 { return; }
      var needed := BlocksFor(|data|);
      var off := sb.dataStart * SECTOR + sb.nextFree * BLOCK;
      ExtentInFile(sb, |b0|, |data|);
      WriteExtent(off, data);
      ghost var b2 := bytes;
      var e := NewEntry(path, |data|, sb.nextFree, needed, 0);
      WriteEntry(idx, e);
      CanonicalNew(path, |data|, sb.nextFree, needed);
      ghost var b3 := bytes;
      var sb' := sb.(nextFree := sb.nextFree + needed, fileCount := (sb.fileCount + 1) % WORD, rest := Zeros(476));
      WriteAt(SUPER_AT, EncodeSuperblock(sb'));
      SpliceSuperblock(b3, sb');
      SpliceLow(b3, SUPER_AT, EncodeSuperblock(sb'));
      SameHigh(b2, bytes, off, off + |data|);
      SameHigh(b2, bytes, DATA_START * SECTOR, off);
      AddAbs(b0, bytes, path, data, idx);
    }

    /** cmd_add: an old file of the path is deleted, then the file is inserted afresh. */
    method Add(path: Path, data: seq<byte>)
      requires SoundImage(bytes) && GoodPath(path)
      requires |data| + BLOCK <= WORD && ImageMap(bytes).next + Blocks(|data|) <= ImageMap(bytes).total
      modifies this
      ensures SoundImage(bytes) && |bytes| == |old(bytes)|
      ensures var v := old(ImageMap(bytes));
        ImageMap(bytes) == if path !in v.files && |v.files| >= MAX_FILES then v
          else v.(files := v.files[path := File(0, data, Blocks(|data|))], next := v.next + Blocks(|data|))
    {
      hide SoundImage, ImageMap, Blocks;
      ghost var v := ImageMap(bytes);
      AtMostFull(bytes);
      var found := Remove(path);
      DroppedSize(v.files, path);
      var f := File(0, data, Blocks(|data|));
      assert v.files[path := f] == (v.files - {path})[path := f];
      Insert(path, data);
      if path !in v.files { NothingToDrop(v.files, path); }
    }
  }
}
