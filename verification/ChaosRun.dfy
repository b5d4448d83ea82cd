/** Whole runs: the mounted file system and the map it refines stay equal, call by call,
    and a remount of the drive finds the same map. */
module ChaosRun {
  import opened Base
  import opened ChaosLayout
  import opened Drive
  import opened ChaosSpec
  import opened ChaosCrash
  import opened ChaosMap
  import opened ChaosFs

  /** The map and the replies after a sequence of operations. */
  ghost function RunOps(v: Volume, ops: seq<Op>): (r: (Volume, seq<Reply>))
    requires forall i :: 0 <= i < |ops| ==> GoodOp(ops[i])
    ensures |r.1| == |ops|
  {
    if ops == [] then (v, [])
    else
      var before := RunOps(v, ops[..|ops| - 1]);
      assert GoodOp(ops[|ops| - 1]);
      var s := Step(before.0, ops[|ops| - 1]);
      (s.0, before.1 + [s.1])
  }

  predicate GoodOp(op: Op) {
    GoodPath(op.path) && (op.WriteOp? ==> |op.data| + BLOCK <= WORD)
  }

  /** Every write of the run finds its blocks. */
  ghost predicate RoomFor(v: Volume, ops: seq<Op>)
    requires forall i :: 0 <= i < |ops| ==> GoodOp(ops[i])
  {
    forall i :: 0 <= i < |ops| ==> HasRoom(RunOps(v, ops[..i]).0, ops[i])
  }

  ghost function MapOf(fs: ChaosFs): Volume
    requires fs.fileTable.Length == 256
    reads fs, fs.drive, fs.fileTable
  {
    Abs(fs.drive.sectors, fs.superblock, fs.Entries())
  }

  lemma RoomAgrees(img: Image, sb: Superblock, t: Table, path: Path, data: seq<byte>)
    requires HasRoom(Abs(img, sb, t), WriteOp(path, data))
    ensures Room(sb, t, path, |data|)
  {
    AbsLookup(img, sb, t, path);
    LookupCapacity(img, sb, t, path);
    BlocksForIs(|data|);
  }

  /** One call, and the same call on the map. */
  method Do(fs: ChaosFs, op: Op) returns (reply: Reply)
    requires fs.Valid() && GoodOp(op) && HasRoom(MapOf(fs), op)
    modifies fs`superblock, fs.fileTable, fs.sectorBuf, fs.drive`sectors, fs.drive`log
    ensures fs.Valid()
    ensures (MapOf(fs), reply) == Step(old(MapOf(fs)), op)
  {
    hide CStr, TableOf, SuperblockOf, Lookup, Abs, Find, FindFree, DataWrites, SyncWrites, Replay, BlocksFor, Blocks, TableOk;
    ghost var img, sb, t := fs.drive.sectors, fs.superblock, fs.Entries();
    match op {
      case WriteOp(path, data) =>
        RoomAgrees(img, sb, t, path, data);
        WriteAbs(img, sb, t, path, data);
        var r := fs.Write(path, data);
        reply := Code(r);
      case ReadOp(path, max) =>
        AbsLookup(img, sb, t, path);
        var buf := new byte[max];
        var r := fs.Read(path, buf, max);
        reply := if r < 0 then Code(-1) else Reply(r, buf[..r], 0, 0);
      case DeleteOp(path) =>
        DeleteAbs(img, sb, t, path);
        var r := fs.Delete(path);
        reply := Code(r);
      case StatOp(path) =>
        AbsLookup(img, sb, t, path);
        var r, size, flags := fs.Stat(path);
        reply := if r < 0 then Code(-1) else Reply(r, [], size, flags);
      case MkdirOp(path) =>
        MkdirAbs(img, sb, t, path);
        var r := fs.Mkdir(path);
        reply := Code(r);
    }
  }

  /** Any run of calls gives the replies of the map and leaves the volume it says. */
  method Run(fs: ChaosFs, ops: seq<Op>) returns (replies: seq<Reply>)
    requires fs.Valid() && forall i :: 0 <= i < |ops| ==> GoodOp(ops[i])
    requires RoomFor(MapOf(fs), ops)
    modifies fs`superblock, fs.fileTable, fs.sectorBuf, fs.drive`sectors, fs.drive`log
    ensures fs.Valid()
    ensures (MapOf(fs), replies) == RunOps(old(MapOf(fs)), ops)
  {
    hide Step, HasRoom, GoodOp, Abs, Sound;
    replies := [];
    for i := 0 to |ops|
      invariant fs.Valid()
      invariant (MapOf(fs), replies) == RunOps(old(MapOf(fs)), ops[..i])
    {
      var reply := Do(fs, ops[i]);
      replies := replies + [reply];
      assert ops[..i + 1][..i] == ops[..i];
    }
    assert ops[..|ops|] == ops;
  }

  /** Mounting a drive that holds a sound volume. */
  method Open(d: AtaDrive) returns (fs: ChaosFs)
    requires d.present && TABLE_START + TABLE_SECTORS <= |d.sectors|
    requires Sound(d.sectors, SuperblockOf(d.sectors), TableOf(d.sectors))
    ensures fresh(fs) && fresh(fs.fileTable) && fresh(fs.sectorBuf) && fs.Valid() && fs.drive == d
    ensures MapOf(fs) == Abs(d.sectors, SuperblockOf(d.sectors), TableOf(d.sectors))
  {
    hide CStr, TableOf, SuperblockOf, Abs, TableOk;
    fs := new ChaosFs(d);
    var ok := fs.Mount();
  }

  /** After any run, mounting the drive again shows the same map. */
  method RunThenRemount(fs: ChaosFs, ops: seq<Op>) returns (again: ChaosFs)
    requires fs.Valid() && forall i :: 0 <= i < |ops| ==> GoodOp(ops[i])
    requires RoomFor(MapOf(fs), ops)
    modifies fs`superblock, fs.fileTable, fs.sectorBuf, fs.drive`sectors, fs.drive`log
    ensures again.Valid() && MapOf(again) == RunOps(old(MapOf(fs)), ops).0
  {
    hide CStr, TableOf, SuperblockOf, Abs, TableOk, Step, HasRoom, GoodOp;
    var _ := Run(fs, ops);
    again := Open(fs.drive);
  }

  /** After a crash inside a create or grow of a sound volume, a new mount goes on from the old map or from the one with
      the new file, unless the cut fell between the table sectors of the new slot and of the erased one. */
  method CrashThenRun(d: AtaDrive, ops: seq<Op>, ghost img: Image, ghost sb: Superblock, ghost t: Table, ghost path: Path,
                      ghost data: seq<byte>, ghost k: nat) returns (fs: ChaosFs, replies: seq<Reply>)
    requires Sound(img, sb, t) && GoodPath(path) && Room(sb, t, path, |data|) && !InPlace(t, path, |data|)
    requires PlacePlan(sb, t, path, data).Commit? && k <= |PlacePlan(sb, t, path, data).writes|
    requires d.present && d.sectors == CrashAt(img, PlacePlan(sb, t, path, data).writes, k)
    requires var n := SectorsOf(|data|); k <= n || !(PlacePlan(sb, t, path, data).slot < 4 * (k - n - 1) <= Find(t, path))
    requires forall i :: 0 <= i < |ops| ==> GoodOp(ops[i])
    requires RoomFor(Abs(d.sectors, SuperblockOf(d.sectors), TableOf(d.sectors)), ops)
    modifies d`sectors, d`log
    ensures fs.Valid() && fs.drive == d
    ensures (MapOf(fs), replies) == RunOps(old(Abs(d.sectors, SuperblockOf(d.sectors), TableOf(d.sectors))), ops)
    ensures old(Abs(d.sectors, SuperblockOf(d.sectors), TableOf(d.sectors))).files ==
      if k < CommitPoint(PlacePlan(sb, t, path, data).slot, |data|) then Abs(img, sb, t).files
      else Abs(img, sb, t).files[path := File(0, data, Blocks(|data|))]
  {
    hide CStr, TableOf, SuperblockOf, Abs, TableOk, Step, HasRoom, GoodOp, PlacePlan, CrashAt, Find, BlocksFor, Blocks, CommitPoint, InPlace, Room;
    CrashPlaceSound(img, sb, t, path, data, k);
    CrashedMap(img, sb, t, path, data, k);
    fs := Open(d);
    replies := Run(fs, ops);
  }
}
