/** The ATA drive as the file system sees it: an array of 512-byte sectors, each
    written atomically. The ghost log records every sector write, so that the
    image left by a crash is the replay of a prefix of the log. */
module Drive {
  import opened Base
  import opened ChaosLayout

  type Image = seq<Sector>

  datatype SectorWrite = SectorWrite(lba: nat, data: Sector)

  const LBA_LIMIT: int := 0x1000_0000

  /** The image after the given sector writes, in order. A write past the end of
      the drive has no effect. */
  ghost function Replay(img: Image, ws: seq<SectorWrite>): (r: Image)
    ensures |r| == |img|
  {
    if ws == [] then img
    else
      var before := Replay(img, ws[..|ws| - 1]);
      var w := ws[|ws| - 1];
      if w.lba < |img| then before[w.lba := w.data] else before
  }

  lemma {:induction false} ReplayAppend(img: Image, a: seq<SectorWrite>, b: seq<SectorWrite>)
    ensures Replay(img, a + b) == Replay(Replay(img, a), b)
  {
    if b == [] {
      assert a + b == a;
    } else {
      assert (a + b)[..|a + b| - 1] == a + b[..|b| - 1];
      ReplayAppend(img, a, b[..|b| - 1]);
    }
  }

  /** Writes to consecutive sectors from `base`. */
  ghost predicate IsRun(base: nat, ws: seq<SectorWrite>) {
    forall i :: 0 <= i < |ws| ==> ws[i].lba == base + i
  }

  lemma {:induction false} ReplayRun(img: Image, base: nat, ws: seq<SectorWrite>, j: nat)
    requires IsRun(base, ws) && j < |img|
    ensures Replay(img, ws)[j] == if base <= j < base + |ws| then ws[j - base].data else img[j]
  {
    if ws != [] {
      ReplayRun(img, base, ws[..|ws| - 1], j);
    }
  }

  function SectorsOf(n: nat): nat { (n + SECTOR - 1) / SECTOR }

  /** Sector i of a buffer, zero-padded past its end. */
  function SectorSlice(data: seq<byte>, i: nat): Sector {
    seq(SECTOR, k requires 0 <= k < SECTOR => if SECTOR * i + k < |data| then data[SECTOR * i + k] else 0)
  }

  ghost function RunOf(base: nat, count: nat, data: seq<byte>): (ws: seq<SectorWrite>)
    ensures |ws| == count && IsRun(base, ws)
    ensures forall i {:trigger ws[i]} :: 0 <= i < count ==> ws[i].data == SectorSlice(data, i)
  {
    seq(count, i requires 0 <= i < count => SectorWrite(base + i, SectorSlice(data, i)))
  }

  lemma RunOfNext(base: nat, n: nat, data: seq<byte>)
    ensures RunOf(base, n + 1, data) == RunOf(base, n, data) + [SectorWrite(base + n, SectorSlice(data, n))]
  {
  }

  /** `n` bytes of the image from the start of sector `base`. */
  function BytesAt(img: Image, base: nat, n: nat): (s: seq<byte>)
    ensures |s| == n
  {
    seq(n, i requires 0 <= i < n => ByteAt(img, base, i))
  }

  function ByteAt(img: Image, base: nat, i: nat): byte {
    if base + i / SECTOR < |img| then img[base + i / SECTOR][i % SECTOR] else 0
  }

  class AtaDrive {
    var sectors: seq<Sector>
    var present: bool
    ghost var log: seq<SectorWrite>

    constructor (img: Image)
      ensures sectors == img && present && log == []
    {
      sectors, present, log := img, true, [];
    }

    /** Reads `count` sectors into `buf` at byte offset `off`. */
    method ReadSectors(lba: u32, count: nat, buf: array<byte>, off: nat) returns (r: int)
      requires count < 256 && off + SECTOR * count <= buf.Length
      requires |sectors| <= LBA_LIMIT
      modifies buf
      ensures r == 0 || r == -1
      ensures r == 0 <==> present && count > 0 && lba % LBA_LIMIT + count <= |sectors|
      ensures r == 0 ==> forall i :: 0 <= i < SECTOR * count ==> buf[off + i] == ByteAt(sectors, lba % LBA_LIMIT, i)
      ensures forall i :: 0 <= i < buf.Length && !(off <= i < off + SECTOR * count) ==> buf[i] == old(buf[i])
    {
      if !present || count == 0 { return -1; }
      var base := lba % LBA_LIMIT;
      var s := 0;
      while s < count
        invariant 0 <= s <= count && (s > 0 ==> base + s <= |sectors|)
        invariant forall i :: 0 <= i < SECTOR * s ==> buf[off + i] == ByteAt(sectors, base, i)
        invariant forall i :: 0 <= i < buf.Length && !(off <= i < off + SECTOR * count) ==> buf[i] == old(buf[i])
      {
        if base + s >= |sectors| { return -1; }
        var data := sectors[base + s];
        forall k | 0 <= k < SECTOR {
          buf[off + SECTOR * s + k] := data[k];
        }
        forall i | 0 <= i < SECTOR * (s + 1)
          ensures buf[off + i] == ByteAt(sectors, base, i)
        {
          if i >= SECTOR * s {
            var k := i - SECTOR * s;
            assert i / SECTOR == s && i % SECTOR == k;
            assert buf[off + SECTOR * s + k] == data[k];
          }
        }
        s := s + 1;
      }
      return 0;
    }

    /** Writes the first `count` sectors of `data`, one at a time. */
    method WriteSectors(lba: u32, count: nat, data: seq<byte>) returns (r: int)
      requires count < 256 && SECTOR * count <= |data|
      requires |sectors| <= LBA_LIMIT
      modifies this`sectors, this`log
      ensures r == 0 || r == -1
      ensures r == 0 <==> present && count > 0 && lba % LBA_LIMIT + count <= |sectors|
      ensures |sectors| == |old(sectors)| && |old(log)| <= |log| <= |old(log)| + count
      ensures log == old(log) + RunOf(lba % LBA_LIMIT, |log| - |old(log)|, data)
      ensures sectors == Replay(old(sectors), log[|old(log)|..])
      ensures r == 0 ==> |log| == |old(log)| + count
    {
      if !present || count == 0 {
        assert log == old(log) + RunOf(lba % LBA_LIMIT, 0, data);
        return -1;
      }
      hide RunOf;
      var base := lba % LBA_LIMIT;
      var s := 0;
      assert log == old(log) + RunOf(base, 0, data);
      while s < count
        invariant 0 <= s <= count && |sectors| == |old(sectors)| && (s > 0 ==> base + s <= |sectors|)
        invariant log == old(log) + RunOf(base, s, data)
        invariant sectors == Replay(old(sectors), RunOf(base, s, data))
      {
        if base + s >= |sectors| {
          assert log[|old(log)|..] == RunOf(base, s, data);
          return -1;
        }
        var sec: Sector := data[SECTOR * s..SECTOR * (s + 1)];
        assert sec == SectorSlice(data, s);
        sectors := sectors[base + s := sec];
        log := log + [SectorWrite(base + s, sec)];
        RunOfNext(base, s, data);
        s := s + 1;
      }
      assert log[|old(log)|..] == RunOf(base, count, data);
      return 0;
    }
  }
}
