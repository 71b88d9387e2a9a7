/** Mounting a disk: binit, readsb, recovery by init_log, the empty inode and file tables
    (kernel/main.c:55-61, kernel/fs.c:24-53). */
module Boot {
  import opened Bytes
  import opened LogSpec
  import opened Bio
  import opened Log
  import opened FsSpec
  import opened FsState
  import opened Dir
  import opened Fs
  import opened SysFile
  import opened SysProc

  /** A disk that holds, once its log is replayed, a file system with inodes `T`. */
  ghost predicate Mountable(d: seq<Block>, sb: Superblock, T: seq<Dinode>, owner: map<nat, Slot>,
      names: map<nat, Slot>) {
    && SuperOk(sb, d) && SbOk(sb) && WfDisk(d, Geo(sb))
    && Consistent(sb, Home(d, Geo(sb)), T, owner, -1) && Tidy(Home(d, Geo(sb)), T, names)
  }

  /** readsb, through the buffer cache. */
  method ReadSuper(bc: BCache) returns (magic: nat, sb: Superblock)
    requires bc.Valid() && |bc.view| > 1 && bc.view == bc.disk.blocks && NoRefs(bc.b.refcnt)
             && forall i :: 0 <= i < NBUF ==> !bc.b.disk[i]
    modifies bc
    ensures bc.Valid() && bc.view == old(bc.view) && NoRefs(bc.b.refcnt) && bc.b.disk == old(bc.b.disk)
    ensures magic == SuperWord(bc.disk.blocks[1], 0) && sb == DecSuper(bc.disk.blocks[1])
  {
    hide Lru, Get;
    assert Recyclable(bc.b, 0);
    var b := bc.Bread(1);
    var data: Block := bc.b.data[b];
    magic, sb := SuperWord(data, 0), DecSuper(data);
    bc.Brelse(b);
  }

  /** From power-on to the first system call. `k` is null for the panic "invalid fs magic". */
  method Mount(disk: Disk, ghost T: seq<Dinode>, ghost owner: map<nat, Slot>, ghost names: map<nat, Slot>)
    returns (k: Files?)
    requires |disk.blocks| > 1 && disk.Current()
    requires SuperWord(disk.blocks[1], 0) == FSMAGIC ==>
             Mountable(disk.blocks, DecSuper(disk.blocks[1]), T, owner, names)
    modifies disk
    ensures k == null <==> SuperWord(old(disk.blocks)[1], 0) != FSMAGIC
    ensures k == null ==> disk.blocks == old(disk.blocks)
    ensures k != null ==> fresh(k) && fresh(k.fs) && fresh(k.fs.log) && fresh(k.fs.log.bc) && k.fs.log.bc.disk == disk
    ensures k != null ==> k.Unopened() && |k.fs.ic.ref| == NINODE && forall p :: 0 <= p < NINODE ==> k.fs.ic.ref[p] == 0
    ensures k != null ==> && k.Valid() && k.fs.sb == DecSuper(old(disk.blocks)[1]) && k.fs.T == T
                          && WfDisk(old(disk.blocks), Geo(k.fs.sb)) && k.fs.V() == Home(old(disk.blocks), Geo(k.fs.sb))
  {
    hide Lru, Coherent, Consistent, Tidy, Home, Mask, Get;
    var bc := new BCache(disk);
    CacheLengths(bc.b, bc.view, disk.blocks);
    var magic, sb := ReadSuper(bc);
    if magic != FSMAGIC { return null; }
    HomeLow(disk.blocks, Geo(sb), 1);
    var log := new Log(bc, sb.logstart, sb.nlog, sb.inodestart);
    var fs := new Fs(log, sb, T, owner, names);
    k := new Files(fs);
  }

  /** A crash at any disk state of a trail, and recovery cut and restarted any number of times:
      the disk can be mounted, and Mount then finds one of the snapshots. */
  lemma CrashMounts(sb: Superblock, h: seq<seq<Block>>, from: nat, snaps: seq<Snap>, k: nat, ds: seq<seq<Block>>)
    returns (j: nat, owner: map<nat, Slot>, names: map<nat, Slot>)
    requires Trail(h, from, Geo(sb), Images(snaps)) && from <= k < |h|
    requires forall j {:trigger snaps[j]} :: 0 <= j < |snaps| ==> Sound(sb, snaps[j])
    requires CutRecoveries(ds, Geo(sb)) && ds[0] == h[k]
    ensures j < |snaps| && Mountable(ds[|ds| - 1], sb, snaps[j].T, owner, names)
    ensures Home(ds[|ds| - 1], Geo(sb)) == snaps[j].V
  {
    hide Home, Consistent, Tidy, SuperIs;
    CutRecoveriesSafe(ds, Geo(sb), |ds| - 1);
    var c := ds[|ds| - 1];
    j :| 0 <= j < |snaps| && Images(snaps)[j] == Home(h[k], Geo(sb));
    assert Sound(sb, snaps[j]);
    owner, names :| Consistent(sb, snaps[j].V, snaps[j].T, owner, -1) && Tidy(snaps[j].V, snaps[j].T, names);
    SoundTable(sb, snaps[j]);
    HomeLow(c, Geo(sb), 1);
  }

  /** Power fails at any disk state of a trail, recoveries are cut any number of times, and then
      the kernel starts: its state is a valid one, with the files of one of the snapshots. */
  method Reboot(disk: Disk, ghost sb: Superblock, ghost h: seq<seq<Block>>, ghost from: nat, ghost snaps: seq<Snap>,
      ghost k: nat, ghost ds: seq<seq<Block>>)
    returns (f: Files, ghost j: nat)
    requires Trail(h, from, Geo(sb), Images(snaps)) && from <= k < |h|
    requires forall j {:trigger snaps[j]} :: 0 <= j < |snaps| ==> Sound(sb, snaps[j])
    requires CutRecoveries(ds, Geo(sb)) && ds[0] == h[k] && disk.Current() && disk.blocks == ds[|ds| - 1]
    modifies disk
    ensures f.Valid() && f.fs.sb == sb && j < |snaps| && f.fs.V() == snaps[j].V && f.fs.T == snaps[j].T
  {
    hide Home, Consistent, Tidy, Trail, CutRecoveries, DecSuper, SuperWord, Sound, WfDisk;
    ghost var owner, names;
    j, owner, names := CrashMounts(sb, h, from, snaps, k, ds);
    var m := Mount(disk, snaps[j].T, owner, names);
    f := m;
  }

  lemma CacheLengths(b: Bufs, view: seq<Block>, blocks: seq<Block>)
    requires Coherent(b, view, blocks)
    ensures |b.refcnt| == |b.disk| == NBUF
  {
  }
}
