/** System calls and crashes together: power fails anywhere in a call, recoveries are cut any number of
    times, and the disk that is left can be mounted with all of the call's effect or none of it. */
module Survive {
  import opened Bytes
  import opened Bio
  import opened LogSpec
  import opened FsSpec
  import opened FsState
  import opened Dir
  import opened Fs
  import opened NameOps
  import opened UserMem
  import opened SysFile
  import opened SysProc
  import opened Boot
  import opened ReadBack
  import Proc

  /** The disk `d` can be mounted and holds exactly one of the snapshots. */
  ghost predicate HoldsOne(sb: Superblock, d: seq<Block>, snaps: seq<Snap>) {
    exists j, owner, names {:trigger Mountable(d, sb, snaps[j].T, owner, names)} ::
      0 <= j < |snaps| && Mountable(d, sb, snaps[j].T, owner, names) && Home(d, Geo(sb)) == snaps[j].V
  }

  /** Whatever recoveries make of any disk state since `from`. */
  ghost predicate Survives(sb: Superblock, h: seq<seq<Block>>, from: nat, snaps: seq<Snap>) {
    forall k: nat, ds {:trigger h[k], CutRecoveries(ds, Geo(sb))} ::
      from <= k < |h| && CutRecoveries(ds, Geo(sb)) && ds[0] == h[k] ==> HoldsOne(sb, ds[|ds| - 1], snaps)
  }

  lemma AllSurvive(sb: Superblock, h: seq<seq<Block>>, from: nat, snaps: seq<Snap>)
    requires Trail(h, from, Geo(sb), Images(snaps))
             && forall j {:trigger snaps[j]} :: 0 <= j < |snaps| ==> Sound(sb, snaps[j])
    ensures Survives(sb, h, from, snaps)
  {
    hide Home, Consistent, Tidy, Trail, CutRecovery, WfDisk, Sound, Mountable;
    forall k: nat, ds | from <= k < |h| && CutRecoveries(ds, Geo(sb)) && ds[0] == h[k]
      ensures HoldsOne(sb, ds[|ds| - 1], snaps)
    {
      var j, owner, names := CrashMounts(sb, h, from, snaps, k, ds);
    }
  }

  lemma TwoImages(a: Snap, b: Snap)
    ensures Images([a, b]) == [a.V, b.V] && Images([a]) == [a.V]
  {
  }

  /** sys_open is atomic: a crash leaves the disk as before the call or as after it. */
  method OpenAtomic(k: Files, s: nat, path: Option<seq<byte>>, omode: nat, name0: Name) returns (ok: bool, r: int)
    requires k.Valid() && s < Proc.NPROC && (path.Some? ==> IsPath(path.value))
    modifies k, k.fs, k.fs.log, k.fs.log.bc, k.fs.log.bc.disk
    ensures !ok ==> OpenStuck(Decide(old(k.fs.V()), old(k.fs.T), path, omode), k.fs.sb, old(k.fs.V()), old(k.fs.T),
                              old(k.fs.ic))
    ensures ok ==> exists i ::
                     OpenEffect(Decide(old(k.fs.V()), old(k.fs.T), path, omode), old(k.fs.V()), old(k.fs.T), k.fs.V(),
                                k.fs.T, i)
    ensures Survives(k.fs.sb, k.fs.log.bc.disk.hist, Since(old(k.fs.log.bc.disk.hist)),
                     if ok then [old(Snap(k.fs.V(), k.fs.T)), Snap(k.fs.V(), k.fs.T)]
                     else [old(Snap(k.fs.V(), k.fs.T))])
  {
    hide Consistent, Tidy, Trail, Home, Sound, Survives, OpenEffect, Decide, Fs.Up, TableOk, FdsOk, CacheOk, Refs,
         Typed, Since, OpenStuck;
    ghost var a, h0 := Snap(k.fs.V(), k.fs.T), k.fs.log.bc.disk.hist;
    SoundNow(k);
    StandsNow(k);
    NoTrail(h0, Geo(k.fs.sb), a);
    ghost var i, q;
    ok, r, i, q := k.SysOpen(s, path, omode, name0);
    if ok {
      SoundNow(k);
      TwoImages(a, Snap(k.fs.V(), k.fs.T));
      AllSurvive(k.fs.sb, k.fs.log.bc.disk.hist, Since(h0), [a, Snap(k.fs.V(), k.fs.T)]);
    } else {
      AllSurvive(k.fs.sb, k.fs.log.bc.disk.hist, Since(h0), [a]);
    }
  }

  /** So is sys_unlink, of an open file as well. */
  method UnlinkAtomic(k: Files, path: Option<seq<byte>>, name0: Name) returns (ok: bool, r: int)
    requires k.Valid() && (path.Some? ==> IsPath(path.value))
    modifies k.fs, k.fs.log, k.fs.log.bc, k.fs.log.bc.disk
    ensures !ok ==> Tight(old(k.fs.ic)) || |FreeBlocks(k.fs.sb, old(k.fs.V()))| < 2
    ensures ok ==> Removed(Aim(old(k.fs.V()), old(k.fs.T), path), old(k.fs.V()), old(k.fs.T), k.fs.V(), k.fs.T, r)
    ensures Survives(k.fs.sb, k.fs.log.bc.disk.hist, Since(old(k.fs.log.bc.disk.hist)),
                     if ok then [old(Snap(k.fs.V(), k.fs.T)), Snap(k.fs.V(), k.fs.T)]
                     else [old(Snap(k.fs.V(), k.fs.T))])
  {
    hide Consistent, Tidy, Trail, Home, Sound, Survives, Removed, Aim, Fs.Up, TableOk, FdsOk, CacheOk, Refs, Typed,
         Since, Spared, FreeBlocks, Tight;
    ghost var a, h0 := Snap(k.fs.V(), k.fs.T), k.fs.log.bc.disk.hist;
    SoundNow(k);
    StandsNow(k);
    NoTrail(h0, Geo(k.fs.sb), a);
    ghost var w;
    ok, r, w := k.SysUnlink(path, name0);
    if ok {
      SoundNow(k, w);
      TwoImages(a, Snap(k.fs.V(), k.fs.T));
      AllSurvive(k.fs.sb, k.fs.log.bc.disk.hist, Since(h0), [a, Snap(k.fs.V(), k.fs.T)]);
    } else {
      AllSurvive(k.fs.sb, k.fs.log.bc.disk.hist, Since(h0), [a]);
    }
  }

  /** A crash in sys_write leaves a whole number of leading chunks. */
  method WriteAtomic(k: Files, s: nat, fd: int, addr: nat, n: int, u: User)
    returns (ok: bool, r: int, out: seq<byte>, ghost snaps: seq<Snap>, ghost data: seq<byte>, ghost i: nat,
             ghost off: nat)
    requires k.Valid() && s < Proc.NPROC
    modifies k, k.fs, k.fs.log, k.fs.log.bc, k.fs.log.bc.disk
    ensures Chunks(k.fs.sb, snaps, i, off, data) && snaps[0] == old(Snap(k.fs.V(), k.fs.T)) && Took(u, addr, data)
    ensures n >= 0 && fd != 1 && fd != 2 && old(FileOf(k, s, fd)) != NFILE ==> old(AtFile(k, FileOf(k, s, fd), i, off))
    ensures if ok then WriteResult(fd, n, u, addr, old(FileOf(k, s, fd)), old(CanWrite(k, FileOf(k, s, fd), i, off)),
                                   data, r)
            else n > |data| && WriteStuck(k.fs.sb, snaps[|snaps| - 1].V, off + |data|, Part(n - |data|))
    ensures Survives(k.fs.sb, k.fs.log.bc.disk.hist, Since(old(k.fs.log.bc.disk.hist)), snaps)
  {
    hide Consistent, Tidy, Trail, Home, Sound, Survives, Fs.Up, TableOk, FdsOk, CacheOk, Refs, Typed, Since, SnapWrote,
         WriteResult, WriteStuck;
    ok, r, out, snaps, data, i, off := SysWrite(k, s, fd, addr, n, u);
    AllSurvive(k.fs.sb, k.fs.log.bc.disk.hist, Since(old(k.fs.log.bc.disk.hist)), snaps);
  }

  /** The disk `d` can be mounted, and the file under the name `path` begins with the `n` bytes of user
      memory at `addr`. */
  ghost predicate HoldsFile(sb: Superblock, d: seq<Block>, path: seq<byte>, u: User, addr: nat, n: nat) {
    exists T, owner, names {:trigger Mountable(d, sb, T, owner, names)} ::
      Mountable(d, sb, T, owner, names) && WfDisk(d, Geo(sb))
      && var V := Home(d, Geo(sb)); NameI(V, T, path) != 0 && Holding(V, T, NameI(V, T, path), u, addr, n)
  }

  /** Once a process has made or opened a file, written it and closed it, power may fail and recoveries
      may be cut any number of times: the disk that is left has the file with what was written. */
  method WriteDurable(k: Files, s: nat, path: seq<byte>, addr: nat, n: nat, u: User, name0: Name) returns (stop: Stop)
    requires k.Valid() && s < Proc.NPROC && IsPath(path) && n < 0x8000_0000 && Mapped(u, addr, n)
    modifies k, k.fs, k.fs.log, k.fs.log.bc, k.fs.log.bc.disk
    ensures stop == NotWritten ==> n > 0
    ensures stop == Done ==> k.fs.log.bc.disk.hist != []
    ensures stop == Done ==> forall ds {:trigger CutRecoveries(ds, Geo(k.fs.sb))} ::
              CutRecoveries(ds, Geo(k.fs.sb)) && ds[0] == k.fs.log.bc.disk.hist[|k.fs.log.bc.disk.hist| - 1] ==>
              HoldsFile(k.fs.sb, ds[|ds| - 1], path, u, addr, n)
  {
    hide Consistent, Tidy, Trail, Home, Sound, Fs.Up, TableOk, FdsOk, CacheOk, Refs, Typed, Mapped, NameI, Holding,
         WfDisk, Mountable, OpenStuck, Decide, FullTables, Survives, CutRecovery;
    ghost var f, fd0;
    stop, f, fd0 := WriteUnder(k, s, path, addr, n, u, name0);
    if stop != Done { return; }
    ghost var a, h := Snap(k.fs.V(), k.fs.T), k.fs.log.bc.disk.hist;
    SoundNow(k);
    StandsNow(k);
    NoTrail(h, Geo(k.fs.sb), a);
    AllSurvive(k.fs.sb, h, Since(h), [a]);
    forall ds | CutRecoveries(ds, Geo(k.fs.sb)) && ds[0] == h[|h| - 1]
      ensures HoldsFile(k.fs.sb, ds[|ds| - 1], path, u, addr, n)
    {
      SurvivesAt(k.fs.sb, h, a, ds);
      OneHolds(k.fs.sb, ds[|ds| - 1], a, path, u, addr, n);
    }
  }

  /** The machine starts again with such a disk, and a process opens the name and reads: it gets what was
      written before the crash, into its memory `w` at `to`. */
  method ReadAfterCrash(disk: Disk, ghost sb: Superblock, path: seq<byte>, ghost u: User, ghost addr: nat, n: nat,
      w: User, to: nat, name0: Name)
    returns (r: int, w': User)
    requires HoldsFile(sb, disk.blocks, path, u, addr, n) && disk.Current() && IsPath(path) && n < 0x8000_0000
             && Mapped(w, to, n)
    modifies disk
    ensures r == n && Fetch(w', to, n) == Fetch(u, addr, n)
  {
    hide Consistent, Tidy, Home, Fs.Up, TableOk, FdsOk, CacheOk, Refs, Typed, Mapped, NameI, Holding, WfDisk, DecSuper,
         SuperWord, Fetch;
    ghost var T, owner, names :| Mountable(disk.blocks, sb, T, owner, names) && WfDisk(disk.blocks, Geo(sb))
      && var V := Home(disk.blocks, Geo(sb)); NameI(V, T, path) != 0 && Holding(V, T, NameI(V, T, path), u, addr, n);
    var k := Mount(disk, T, owner, names);
    var ok;
    FreeSlots(k.fs.ic);
    ok, r, w' := ReadUnder(k, 0, path, to, n, w, name0, u, addr, 0, 3);
  }

  lemma FreeSlots(c: ICache)
    requires |c.ref| == NINODE && forall p :: 0 <= p < NINODE ==> c.ref[p] == 0
    ensures !Tight(c)
  {
    assert c.ref[0] == 0 && c.ref[1] == 0;
  }

  lemma SurvivesAt(sb: Superblock, h: seq<seq<Block>>, a: Snap, ds: seq<seq<Block>>)
    requires Survives(sb, h, Since(h), [a]) && h != [] && CutRecoveries(ds, Geo(sb)) && ds[0] == h[|h| - 1]
    ensures HoldsOne(sb, ds[|ds| - 1], [a])
  {
    hide HoldsOne, CutRecovery;
  }

  lemma OneHolds(sb: Superblock, d: seq<Block>, a: Snap, path: seq<byte>, u: User, addr: nat, n: nat)
    requires HoldsOne(sb, d, [a]) && Holding(a.V, a.T, NameI(a.V, a.T, path), u, addr, n) && NameI(a.V, a.T, path) != 0
    ensures HoldsFile(sb, d, path, u, addr, n)
  {
    hide Consistent, Tidy, Holding, NameI, Home;
  }
}
