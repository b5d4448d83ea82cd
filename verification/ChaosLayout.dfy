/** The on-disk layout of ChaosFS: a superblock sector followed by a table of
    128-byte entries, four to a sector. The structures are packed, so what the
    kernel keeps in memory and what it writes are the same bytes. */
module ChaosLayout {
  import opened Base

  const SECTOR: int := 512
  const START_SECTOR: int := 2048
  const TABLE_START: int := START_SECTOR + 1
  const MAX_FILES: int := 256
  const TABLE_SECTORS: int := 64
  const BLOCK: int := 4096
  const VERSION: int := 1
  const FLAG_DIR: int := 1
  const FLAG_DELETED: int := 2

  const MAGIC: seq<byte> := [0x43, 0x48, 0x41, 0x4f, 0x53, 0x46, 0x53, 0x21]

  type Bytes7 = s: seq<byte> | |s| == 7 witness seq(7, i => 0)
  type Bytes8 = s: seq<byte> | |s| == 8 witness seq(8, i => 0)
  type Bytes108 = s: seq<byte> | |s| == 108 witness seq(108, i => 0)
  type Bytes476 = s: seq<byte> | |s| == 476 witness seq(476, i => 0)
  type Sector = s: seq<byte> | |s| == 512 witness seq(512, i => 0)

  /** `rest` is the reserved tail up to the end of the sector. */
  datatype Superblock = Superblock(
    magic: Bytes8, version: u32, blockSize: u32, totalBlocks: u32, fileCount: u32,
    maxFiles: u32, dataStart: u32, nextFree: u32, rest: Bytes476)

  datatype Entry = Entry(
    filename: Bytes108, size: u32, startBlock: u32, blockCount: u32, flags: byte, reserved: Bytes7)

  predicate Deleted(flags: byte) { flags / FLAG_DELETED % 2 == 1 }

  predicate IsDir(flags: byte) { flags % 2 == 1 }

  /** `flags |= CHAOSFS_FLAG_DELETED` */
  function WithDeleted(flags: byte): (f: byte)
    ensures Deleted(f) && IsDir(f) == IsDir(flags)
  {
    if Deleted(flags) then flags else flags + FLAG_DELETED
  }

  function EncodeSuperblock(sb: Superblock): Sector {
    sb.magic + Le32(sb.version) + Le32(sb.blockSize) + Le32(sb.totalBlocks) + Le32(sb.fileCount)
    + Le32(sb.maxFiles) + Le32(sb.dataStart) + Le32(sb.nextFree) + sb.rest
  }

  function DecodeSuperblock(s: Sector): Superblock {
    Superblock(s[..8], FromLe32(s[8..12]), FromLe32(s[12..16]), FromLe32(s[16..20]), FromLe32(s[20..24]),
               FromLe32(s[24..28]), FromLe32(s[28..32]), FromLe32(s[32..36]), s[36..])
  }

  function EncodeEntry(e: Entry): (s: seq<byte>)
    ensures |s| == 128
  {
    e.filename + Le32(e.size) + Le32(e.startBlock) + Le32(e.blockCount) + [e.flags] + e.reserved
  }

  function DecodeEntry(s: seq<byte>): Entry
    requires |s| == 128
  {
    Entry(s[..108], FromLe32(s[108..112]), FromLe32(s[112..116]), FromLe32(s[116..120]), s[120], s[121..])
  }

  lemma SuperblockSlices(m: Bytes8, a: seq<byte>, b: seq<byte>, c: seq<byte>, d: seq<byte>,
                         e: seq<byte>, f: seq<byte>, g: seq<byte>, r: Bytes476)
    requires |a| == |b| == |c| == |d| == |e| == |f| == |g| == 4
    ensures var s := m + a + b + c + d + e + f + g + r;
      && s[..8] == m && s[8..12] == a && s[12..16] == b && s[16..20] == c && s[20..24] == d
      && s[24..28] == e && s[28..32] == f && s[32..36] == g && s[36..] == r
  {
  }

  lemma SuperblockRoundTrip(sb: Superblock)
    ensures DecodeSuperblock(EncodeSuperblock(sb)) == sb
  {
    hide Le32, FromLe32;
    FromLe32OfLe32(sb.version);
    FromLe32OfLe32(sb.blockSize);
    FromLe32OfLe32(sb.totalBlocks);
    FromLe32OfLe32(sb.fileCount);
    FromLe32OfLe32(sb.maxFiles);
    FromLe32OfLe32(sb.dataStart);
    FromLe32OfLe32(sb.nextFree);
    SuperblockSlices(sb.magic, Le32(sb.version), Le32(sb.blockSize), Le32(sb.totalBlocks), Le32(sb.fileCount),
                     Le32(sb.maxFiles), Le32(sb.dataStart), Le32(sb.nextFree), sb.rest);
  }

  lemma EntrySlices(n: Bytes108, a: seq<byte>, b: seq<byte>, c: seq<byte>, f: byte, r: Bytes7)
    requires |a| == |b| == |c| == 4
    ensures var s := n + a + b + c + [f] + r;
      s[..108] == n && s[108..112] == a && s[112..116] == b && s[116..120] == c && s[120] == f && s[121..] == r
  {
  }

  lemma EntryRoundTrip(e: Entry)
    ensures DecodeEntry(EncodeEntry(e)) == e
  {
    hide Le32, FromLe32;
    FromLe32OfLe32(e.size);
    FromLe32OfLe32(e.startBlock);
    FromLe32OfLe32(e.blockCount);
    EntrySlices(e.filename, Le32(e.size), Le32(e.startBlock), Le32(e.blockCount), e.flags, e.reserved);
  }

  /** Four consecutive table entries fill one sector. */
  function EncodeFour(t: seq<Entry>, i: nat): Sector
    requires 4 * i + 4 <= |t|
  {
    EncodeEntry(t[4 * i]) + EncodeEntry(t[4 * i + 1]) + EncodeEntry(t[4 * i + 2]) + EncodeEntry(t[4 * i + 3])
  }

  /** Entry k (of four) of a table sector. */
  function SlotOf(s: Sector, k: nat): Entry
    requires k < 4
  {
    DecodeEntry(s[128 * k..128 * k + 128])
  }

  lemma SlotOfEncodeFour(t: seq<Entry>, i: nat, k: nat)
    requires 4 * i + 4 <= |t| && k < 4
    ensures SlotOf(EncodeFour(t, i), k) == t[4 * i + k]
  {
    var s := EncodeFour(t, i);
    assert s[128 * k..128 * k + 128] == EncodeEntry(t[4 * i + k]);
    EntryRoundTrip(t[4 * i + k]);
  }
}
