/** sys_write and sys_read of kernel/sysproc.c: a transfer in chunks, each write chunk its own
    transaction, and what a crash in the middle leaves behind. */
module SysProc {
  import opened Bytes
  import opened LogSpec
  import opened FsSpec
  import opened FsState
  import opened Dir
  import opened Fs
  import opened SysFile
  import opened UserMem
  import Proc

  const CHUNK := 512

  /** An image of the disk and the inodes it holds. */
  datatype Snap = Snap(V: seq<Block>, T: seq<Dinode>)

  /** The image is a consistent file system with exactly these inodes. */
  ghost predicate Sound(sb: Superblock, s: Snap) {
    SuperOk(sb, s.V) && exists owner, names :: Consistent(sb, s.V, s.T, owner, -1) && Tidy(s.V, s.T, names)
  }

  /** The length of the first `j` chunks of `n` bytes. */
  function Cut(j: nat, n: nat): (c: nat)
    ensures c <= n
  {
    if CHUNK * j < n then CHUNK * j else n
  }

  ghost function Images(snaps: seq<Snap>): (v: seq<seq<Block>>)
    ensures |v| == |snaps|
  {
    seq(|snaps|, j requires 0 <= j < |snaps| => snaps[j].V)
  }

  ghost predicate SnapWrote(a: Snap, b: Snap, i: nat, off: nat, data: seq<byte>) {
    FileWrote(a.V, a.T, b.V, b.T, i, off, data)
  }

  /** Snapshot `j` has exactly the first `j` chunks of `data` in file `i`, all else as in the first. */
  ghost predicate Chunks(sb: Superblock, snaps: seq<Snap>, i: nat, off: nat, data: seq<byte>) {
    && |snaps| > 0 && |data| <= CHUNK * (|snaps| - 1)
    && (forall j {:trigger snaps[j]} :: 0 <= j < |snaps| ==> Sound(sb, snaps[j]))
    && (forall j {:trigger snaps[j]} ::
          1 <= j < |snaps| ==> SnapWrote(snaps[0], snaps[j], i, off, data[..Cut(j, |data|)]))
  }

  lemma SpliceSplice(c: seq<byte>, off: nat, a: seq<byte>, b: seq<byte>)
    requires off <= |c|
    ensures off + |a| <= |Splice(c, off, a)| && Splice(Splice(c, off, a), off + |a|, b) == Splice(c, off, a + b)
  {
    hide Splice;
    var x, y := Splice(c, off, a), Splice(c, off, a + b);
    SpliceLen(c, off, a);
    SpliceLen(c, off, a + b);
    SpliceLen(x, off + |a|, b);
    var z := Splice(x, off + |a|, b);
    forall k | 0 <= k < |y| ensures z[k] == y[k] {
      SpliceByte(x, off + |a|, b, k);
      SpliceByte(c, off, a + b, k);
      if k < |x| { SpliceByte(c, off, a, k); }
    }
  }

  lemma SpliceLen(c: seq<byte>, off: nat, src: seq<byte>)
    requires off <= |c|
    ensures |Splice(c, off, src)| == if off + |src| > |c| then off + |src| else |c|
  {
  }

  lemma SpliceByte(c: seq<byte>, off: nat, src: seq<byte>, k: nat)
    requires off <= |c| && k < |Splice(c, off, src)|
    ensures Splice(c, off, src)[k] == if off <= k < off + |src| then src[k - off] else c[k]
  {
  }

  lemma WroteWrote(a: Snap, b: Snap, c: Snap, i: nat, off: nat, x: seq<byte>, y: seq<byte>)
    requires SnapWrote(a, b, i, off, x) && SnapWrote(b, c, i, off + |x|, y)
    ensures SnapWrote(a, c, i, off, x + y)
  {
    hide Splice, Content;
    SpliceSplice(Content(a.V, a.T[i]), off, x, y);
    OnlyTrans(a.V, a.T, b.V, b.T, c.V, c.T, i);
  }

  /** One more chunk. */
  lemma MoreChunks(sb: Superblock, snaps: seq<Snap>, i: nat, off: nat, data: seq<byte>, s: Snap, src: seq<byte>)
    requires Chunks(sb, snaps, i, off, data) && |data| == CHUNK * (|snaps| - 1) && 0 < |src| <= CHUNK
    requires Sound(sb, s) && SnapWrote(snaps[|snaps| - 1], s, i, off + |data|, src)
    ensures Chunks(sb, snaps + [s], i, off, data + src)
  {
    hide SnapWrote, Sound;
    var n, d := |snaps|, data + src;
    forall j | 1 <= j < n ensures SnapWrote(snaps[0], snaps[j], i, off, d[..Cut(j, |d|)]) {
      assert d[..Cut(j, |d|)] == data[..Cut(j, |data|)];
    }
    if n > 1 {
      assert data[..Cut(n - 1, |data|)] == data;
      WroteWrote(snaps[0], snaps[n - 1], s, i, off, data, src);
    } else {
      assert data + src == src;
    }
    assert d[..Cut(n, |d|)] == d;
  }

  lemma StartChunks(sb: Superblock, s: Snap, i: nat, off: nat)
    requires Sound(sb, s)
    ensures Chunks(sb, [s], i, off, [])
  {
  }

  /** The disk states of one more transaction. */
  lemma MoreTrail(h: seq<seq<Block>>, h': seq<seq<Block>>, from: nat, g: Geometry, snaps: seq<Snap>, s: Snap)
    requires from <= |h| && h <= h' && |snaps| > 0 && Trail(h, from, g, Images(snaps))
    requires Trail(h', Since(h), g, [snaps[|snaps| - 1].V, s.V])
    ensures Trail(h', from, g, Images(snaps + [s]))
  {
    hide Home;
    var a, b := Images(snaps), Images(snaps + [s]);
    assert b[..|a|] == a && b[|a| - 1] == snaps[|snaps| - 1].V && b[|a|] == s.V;
    forall k | from <= k < |h'| ensures WfDisk(h'[k], g) && Home(h'[k], g) in b {
      if k < |h| {
        assert h'[k] == h[k] && Home(h[k], g) in a;
        var m :| 0 <= m < |a| && a[m] == Home(h[k], g);
        assert b[m] == a[m];
      }
    }
  }

  /** A write of `m` bytes at `off` may panic: the file would be too long, or there are not as many
      free blocks as it touches and one more for the indirect block. */
  ghost predicate WriteStuck(sb: Superblock, V: seq<Block>, off: nat, m: nat) {
    off + m > MAXBYTES || |FreeBlocks(sb, V)| <= Span(off, m)
  }

  /** begin_op, copyin, filewrite, end_op: one round of sys_write. */
  method WriteRound(k: Files, f: nat, addr: nat, m: nat, u: User, ghost i: nat)
    returns (ok: bool, src: Option<seq<byte>>, r: int)
    requires k.Valid() && f < NFILE && k.ft.ref[f] == 1 && k.ft.ip[f] < NINODE && i == k.fs.ic.inum[k.ft.ip[f]]
             && m <= CHUNK
    modifies k`ft, k.fs`ic, k.fs`T, k.fs`owner, k.fs.log, k.fs.log.bc, k.fs.log.bc.disk
    ensures src == Fetch(u, addr, m)
    ensures !ok ==> k.fs.log.Now() == old(k.fs.log.Now()) && Shape(old(k.ft))
                    && WriteStuck(k.fs.sb, old(k.fs.V()), old(k.ft.off[f]), m)
    ensures ok ==> k.Valid() && k.fs.ic.inum == old(k.fs.ic.inum)
    ensures ok && src.Some? ==>
            Written(old(k.fs.V()), old(k.fs.T), k.fs.V(), k.fs.T, i, old(k.ft), k.ft, f, src.value, r)
    ensures ok && src.None? ==> k.fs.V() == old(k.fs.V()) && k.fs.T == old(k.fs.T) && k.ft == old(k.ft)
    ensures ok ==> && old(k.fs.log.bc.disk.hist) <= k.fs.log.bc.disk.hist
                   && Trail(k.fs.log.bc.disk.hist, Since(old(k.fs.log.bc.disk.hist)), Geo(k.fs.sb),
                            [old(k.fs.V()), k.fs.V()])
  {
    hide Fs.Up, Consistent, CacheOk, Refs, Typed, Tidy, TableOk, FdsOk, SuperIs, Trail, FileWrote, Mapped, Span, NoFree,
         FreeBlocks;
    k.fs.IdleDurable();
    TableShape(k.ft, k.fs.ic, k.fs.T);
    k.fs.Begin();
    src := Fetch(u, addr, m);
    r := -1;
    ok := true;
    if src.Some? {
      MoveFd(k.ofile, k.ft, k.holder, f, k.ft.off[f] + m);
      k.fs.ShortIs(Span(k.ft.off[f], m) + 1);
      ok, r := k.Filewrite(f, src.value, i);
      if !ok { return; }
    }
    k.fs.End();
  }

  /** `data` is what the user's memory holds from `addr` on. */
  ghost predicate Took(u: User, addr: nat, data: seq<byte>) {
    forall a {:trigger a in u} :: addr <= a < addr + |data| ==> a in u && u[a] == data[a - addr]
  }

  lemma TookMore(u: User, addr: nat, data: seq<byte>, m: nat)
    requires Took(u, addr, data) && Fetch(u, addr + |data|, m).Some?
    ensures Took(u, addr, data + Fetch(u, addr + |data|, m).value)
  {
    var src := Fetch(u, addr + |data|, m).value;
    forall a | addr <= a < addr + |data + src| ensures a in u && u[a] == (data + src)[a - addr] {
      if a >= addr + |data| { assert src[a - addr - |data|] == u[a]; }
    }
  }

  lemma MappedPart(u: User, va: nat, n: nat, a: nat, m: nat)
    requires Mapped(u, va, n) && va <= a && a + m <= va + n
    ensures Mapped(u, a, m)
  {
  }

  lemma SoundNow(k: Files, ex: int := -1)
    requires k.Valid(ex)
    ensures Sound(k.fs.sb, Snap(k.fs.V(), k.fs.T))
  {
    hide Fs.Up, Consistent, CacheOk, Refs, Typed, Tidy, TableOk, FdsOk, SuperIs;
    k.fs.UpFacts();
  }

  /** A written file reaches as far as the write. */
  lemma WroteSize(a: Snap, b: Snap, i: nat, off: nat, data: seq<byte>)
    requires SnapWrote(a, b, i, off, data)
    ensures i < |b.T| && off + |data| <= b.T[i].size <= MAXBYTES
  {
    hide Splice;
  }

  /** The file that descriptor `fd` of process `s` stands for; NFILE for none. */
  function FileOf(k: Files, s: nat, fd: int): (f: nat)
    requires s < Proc.NPROC && |k.ofile| == Proc.NPROC * NOFILE
    reads k
  {
    if 0 <= fd < NOFILE then k.ofile[Fd(s, fd)] else NFILE
  }

  /** The write so far: `data` is in file `i`, in the chunks that the snapshots show, `cur` is
      the last of them, and every disk state since `from` stands for one of them. */
  ghost predicate Going(sb: Superblock, h: seq<seq<Block>>, from: nat, snaps: seq<Snap>, i: nat, off: nat,
      data: seq<byte>, u: User, addr: nat, cur: Snap) {
    && Chunks(sb, snaps, i, off, data) && snaps[|snaps| - 1] == cur && Took(u, addr, data)
    && from <= |h| && Trail(h, from, Geo(sb), Images(snaps))
  }

  lemma GoingStart(sb: Superblock, h: seq<seq<Block>>, i: nat, off: nat, u: User, addr: nat, s: Snap)
    requires Sound(sb, s) && h != [] && WfDisk(h[|h| - 1], Geo(sb)) && Home(h[|h| - 1], Geo(sb)) == s.V
    ensures Going(sb, h, Since(h), [s], i, off, [], u, addr, s)
  {
    hide Sound, Home, WfDisk;
    StartChunks(sb, s, i, off);
    NoTrail(h, Geo(sb), s);
  }

  lemma GoingOn(sb: Superblock, h: seq<seq<Block>>, h': seq<seq<Block>>, from: nat, snaps: seq<Snap>, i: nat, off: nat,
      data: seq<byte>, u: User, addr: nat, last: Snap, s: Snap, m: nat)
    requires Going(sb, h, from, snaps, i, off, data, u, addr, last) && |data| == CHUNK * (|snaps| - 1) && 0 < m <= CHUNK
    requires Fetch(u, addr + |data|, m).Some?
             && FileWrote(last.V, last.T, s.V, s.T, i, off + |data|, Fetch(u, addr + |data|, m).value)
    requires Sound(sb, s) && h <= h' && Trail(h', Since(h), Geo(sb), [last.V, s.V])
    ensures Going(sb, h', from, snaps + [s], i, off, data + Fetch(u, addr + |data|, m).value, u, addr, s)
    ensures i < |s.T| && off + |data| + m <= s.T[i].size <= MAXBYTES
  {
    hide Chunks, Took, Trail, Images, Sound, FileWrote, Mapped;
    var src := Fetch(u, addr + |data|, m).value;
    assert SnapWrote(last, s, i, off + |data|, src) by { SnapIs(last, s, i, off + |data|, src); }
    assert |snaps| > 0 by { ChunksLen(sb, snaps, i, off, data); }
    WroteSize(last, s, i, off + |data|, src);
    MoreChunks(sb, snaps, i, off, data, s, src);
    MoreTrail(h, h', from, Geo(sb), snaps, s);
    TookMore(u, addr, data, m);
  }

  lemma GoingStill(sb: Superblock, h: seq<seq<Block>>, h': seq<seq<Block>>, from: nat, snaps: seq<Snap>, i: nat,
      off: nat, data: seq<byte>, u: User, addr: nat, last: Snap)
    requires Going(sb, h, from, snaps, i, off, data, u, addr, last) && h <= h'
             && Trail(h', Since(h), Geo(sb), [last.V, last.V])
    ensures Going(sb, h', from, snaps, i, off, data, u, addr, last)
  {
    hide Chunks, Took, Trail, Images;
    assert |snaps| > 0 by { ChunksLen(sb, snaps, i, off, data); }
    NoStep(h, h', from, Geo(sb), snaps, last.V);
  }

  lemma ChunksLen(sb: Superblock, snaps: seq<Snap>, i: nat, off: nat, data: seq<byte>)
    requires Chunks(sb, snaps, i, off, data)
    ensures |snaps| > 0
  {
  }

  lemma GoingIs(sb: Superblock, h: seq<seq<Block>>, from: nat, snaps: seq<Snap>, i: nat, off: nat, data: seq<byte>,
      u: User, addr: nat, cur: Snap)
    requires Going(sb, h, from, snaps, i, off, data, u, addr, cur)
    ensures Chunks(sb, snaps, i, off, data) && |snaps| > 0 && snaps[|snaps| - 1] == cur && Took(u, addr, data)
            && Trail(h, from, Geo(sb), Images(snaps))
  {
    hide Took, Trail, Images;
  }

  /** A round of sys_write with its account of what has been written so far. */
  method WriteNext(k: Files, f: nat, addr: nat, m: nat, u: User, ghost i: nat, ghost from: nat, ghost snaps0: seq<Snap>,
      ghost off: nat, ghost data0: seq<byte>, ghost start: nat)
    returns (ok: bool, copied: bool, r: int, ghost snaps: seq<Snap>, ghost data: seq<byte>)
    requires k.Valid() && f < NFILE && k.ft.ref[f] == 1 && k.ft.ip[f] < NINODE && i == k.fs.ic.inum[k.ft.ip[f]]
             && 0 < m <= CHUNK
    requires |data0| == CHUNK * (|snaps0| - 1) && addr == start + |data0| && k.ft.off[f] == off + |data0|
    requires Going(k.fs.sb, k.fs.log.bc.disk.hist, from, snaps0, i, off, data0, u, start, Snap(k.fs.V(), k.fs.T))
    modifies k`ft, k.fs`ic, k.fs`T, k.fs`owner, k.fs.log, k.fs.log.bc, k.fs.log.bc.disk
    ensures snaps0 <= snaps
    ensures ok ==> k.Valid() && k.fs.ic.inum == old(k.fs.ic.inum) && copied == Mapped(u, addr, m)
    ensures ok ==> Going(k.fs.sb, k.fs.log.bc.disk.hist, from, snaps, i, off, data, u, start, Snap(k.fs.V(), k.fs.T))
    ensures ok ==> Shape(old(k.ft)) && k.ft == old(k.ft).(off := old(k.ft.off)[f := off + |data|]) && i < |k.fs.T|
    ensures ok ==> if r <= 0 || !copied then data == data0 && snaps == snaps0 && k.fs.T == old(k.fs.T)
                   else r == m && |snaps| == |snaps0| + 1 && |data| == |data0| + m
                        && off + |data| <= k.fs.T[i].size <= MAXBYTES
    ensures ok && copied && i < |old(k.fs.T)| && WfFile(old(k.fs.T)[i]) ==>
            (r <= 0 <==> !old(k.ft.writable[f]) || old(k.ft.off[f]) > old(k.fs.T)[i].size)
    ensures !ok ==> Going(k.fs.sb, k.fs.log.bc.disk.hist, from, snaps, i, off, data, u, start,
                          old(Snap(k.fs.V(), k.fs.T)))
                    && snaps == snaps0 && data == data0 && WriteStuck(k.fs.sb, old(k.fs.V()), off + |data|, m)
  {
    hide Fs.Up, Consistent, CacheOk, Refs, Typed, Tidy, TableOk, FdsOk, SuperIs, Trail, FileWrote, Mapped, Going, Sound,
         WriteStuck;
    snaps, data := snaps0, data0;
    ghost var h, last := k.fs.log.bc.disk.hist, Snap(k.fs.V(), k.fs.T);
    var src;
    TableShape(k.ft, k.fs.ic, k.fs.T);
    HeldAt(k.ft, k.fs.ic, k.fs.T, f);
    assert k.ft == k.ft.(off := k.ft.off[f := off + |data|]);
    ok, src, r := WriteRound(k, f, addr, m, u, i);
    copied := src.Some?;
    if !ok { return; }
    if !copied || r <= 0 {
      GoingStill(k.fs.sb, h, k.fs.log.bc.disk.hist, from, snaps, i, off, data, u, start, last);
      return;
    }
    ghost var s := Snap(k.fs.V(), k.fs.T);
    SoundNow(k);
    GoingOn(k.fs.sb, h, k.fs.log.bc.disk.hist, from, snaps, i, off, data, u, start, last, s, m);
    snaps, data := snaps + [s], data + src.value;
  }

  /** How much of what is left goes into one chunk. */
  function Part(left: nat): (m: nat)
    ensures m <= 512 && m <= left && (m == 512 || m == left)
  {
    if left > CHUNK then CHUNK else left
  }

  /** Open file `f` is inode `i`, at offset `off`. */
  ghost predicate AtFile(k: Files, f: nat, i: nat, off: nat)
    reads k, k.fs
  {
    && Shape(k.ft) && f < NFILE && k.ft.ip[f] < |k.fs.ic.inum|
    && i == k.fs.ic.inum[k.ft.ip[f]] && off == k.ft.off[f]
  }

  /** It may be written at its offset. */
  ghost predicate CanWrite(k: Files, f: nat, i: nat, off: nat)
    reads k, k.fs
  {
    AtFile(k, f, i, off) && k.ft.writable[f] && i < |k.fs.T| && off <= k.fs.T[i].size
  }

  /** The file table once the offset of file `f` is `off`. */
  function Advanced(t: FTable, f: nat, off: nat): FTable {
    if f < |t.off| then t.(off := t.off[f := off]) else t
  }

  /** The result for a file. If it can be written: all `n` bytes exactly if all of the buffer is
      accessible, and otherwise -1, the chunk after `data` being the first that is not. If it cannot:
      nothing is written, and whether the first chunk is accessible decides between 0 and -1. */
  ghost predicate FileResult(n: nat, u: User, addr: nat, can: bool, data: seq<byte>, r: int) {
    if !can then data == [] && r == if Mapped(u, addr, Part(n)) then 0 else -1
    else if Mapped(u, addr, n) then r == n == |data|
    else r == -1 && StoppedAt(u, addr, n, data, 512)
  }

  /** The file half of sys_write. After `data` has been written in whole chunks, the last one
      perhaps short, the snapshots are the states between chunks; every disk state since the
      call stands for one of them. A panic (`ok` false) leaves it at that; it comes only when
      the next chunk does not fit. */
  method WriteChunks(k: Files, f: nat, addr: nat, n: nat, u: User, ghost i: nat, ghost off: nat)
    returns (ok: bool, r: int, ghost snaps: seq<Snap>, ghost data: seq<byte>)
    requires k.Valid() && AtFile(k, f, i, off) && k.ft.ref[f] == 1
    modifies k`ft, k.fs`ic, k.fs`T, k.fs`owner, k.fs.log, k.fs.log.bc, k.fs.log.bc.disk
    ensures Chunks(k.fs.sb, snaps, i, off, data) && snaps[0] == old(Snap(k.fs.V(), k.fs.T)) && Took(u, addr, data)
    ensures Trail(k.fs.log.bc.disk.hist, Since(old(k.fs.log.bc.disk.hist)), Geo(k.fs.sb), Images(snaps))
    ensures if ok then |data| <= n
            else |data| < n && WriteStuck(k.fs.sb, snaps[|snaps| - 1].V, off + |data|, Part(n - |data|))
    ensures ok ==> k.Valid() && snaps[|snaps| - 1] == Snap(k.fs.V(), k.fs.T)
                   && k.ft == Advanced(old(k.ft), f, off + |data|)
    ensures ok ==> FileResult(n, u, addr, old(CanWrite(k, f, i, off)), data, r)
  {
    hide Fs.Up, Consistent, CacheOk, Refs, Typed, Tidy, TableOk, FdsOk, SuperIs, Trail, Mapped, Chunks, Took, Images,
         Sound, WriteStuck, Part, Going, InLog, WfDisk, Home, Since, Geo;
    HeldAt(k.ft, k.fs.ic, k.fs.T, f);
    k.fs.SizeOk(i);
    ghost var t0, from := k.ft, Since(k.fs.log.bc.disk.hist);
    ghost var good := t0.writable[f] && off <= k.fs.T[i].size;
    snaps, data := [Snap(k.fs.V(), k.fs.T)], [];
    SoundNow(k);
    StandsNow(k);
    GoingStart(k.fs.sb, k.fs.log.bc.disk.hist, i, off, u, addr, snaps[0]);
    assert t0 == t0.(off := t0.off[f := off]);
    MappedJoin(u, addr, 0, 0);
    var left, total, a := n, 0, addr;
    while left > 0
      invariant 0 <= left && left + total == n && |data| == total && a == addr + total
      invariant k.Valid() && k.fs.ic.inum == old(k.fs.ic.inum) && k.ft == t0.(off := t0.off[f := off + total])
      invariant |snaps| > 0 && snaps[0] == old(Snap(k.fs.V(), k.fs.T))
      invariant left > 0 ==> total == CHUNK * (|snaps| - 1)
      invariant Going(k.fs.sb, k.fs.log.bc.disk.hist, from, snaps, i, off, data, u, addr, Snap(k.fs.V(), k.fs.T))
      invariant i < |k.fs.T| && WfFile(k.fs.T[i]) && (good ==> off + total <= k.fs.T[i].size)
      invariant Mapped(u, addr, total) && (!good ==> total == 0 && k.fs.T == old(k.fs.T))
    {
      var m := Part(left);
      if Mapped(u, addr, n) { MappedPart(u, addr, n, a, m); }
      var copied;
      ghost var cur := Snap(k.fs.V(), k.fs.T);
      ok, copied, r, snaps, data := WriteNext(k, f, a, m, u, i, from, snaps, off, data, addr);
      if !ok || !copied {
        GoingIs(k.fs.sb, k.fs.log.bc.disk.hist, from, snaps, i, off, data, u, addr,
                if ok then Snap(k.fs.V(), k.fs.T) else cur);
        Whole(|data|, |snaps| - 1);
        r := -1;
        return;
      }
      if r <= 0 { break; }
      k.fs.SizeOk(i);
      MappedJoin(u, addr, total, r);
      total, a, left := total + r, a + r, left - r;
    }
    GoingIs(k.fs.sb, k.fs.log.bc.disk.hist, from, snaps, i, off, data, u, addr, Snap(k.fs.V(), k.fs.T));
    return true, total, snaps, data;
  }

  lemma Whole(a: nat, k: nat)
    ensures a == CHUNK * k ==> a % 512 == 0
  {
  }

  lemma SnapIs(a: Snap, b: Snap, i: nat, off: nat, data: seq<byte>)
    requires FileWrote(a.V, a.T, b.V, b.T, i, off, data)
    ensures SnapWrote(a, b, i, off, data)
  {
    hide FileWrote;
  }

  lemma TookNone(u: User, addr: nat)
    ensures Took(u, addr, [])
  {
  }

  lemma NoTrail(h: seq<seq<Block>>, g: Geometry, s: Snap)
    requires h != [] && WfDisk(h[|h| - 1], g) && Home(h[|h| - 1], g) == s.V
    ensures Trail(h, Since(h), g, Images([s]))
  {
    hide Home, WfDisk;
    assert Images([s]) == [s.V];
  }

  /** Between calls the present disk state stands for what the kernel sees. */
  lemma StandsNow(k: Files)
    requires k.Valid()
    ensures var h := k.fs.log.bc.disk.hist;
            h != [] && WfDisk(h[|h| - 1], Geo(k.fs.sb)) && Home(h[|h| - 1], Geo(k.fs.sb)) == k.fs.V()
  {
    hide Consistent, CacheOk, Refs, Typed, Tidy, TableOk, FdsOk, SuperIs, Home, Loggable;
    k.fs.LogEmpty();
    k.fs.IdleDurable();
  }

  /** A transaction that has changed nothing. */
  lemma NoStep(h: seq<seq<Block>>, h': seq<seq<Block>>, from: nat, g: Geometry, snaps: seq<Snap>, V: seq<Block>)
    requires from <= |h| && h <= h' && |snaps| > 0 && Trail(h, from, g, Images(snaps))
    requires snaps[|snaps| - 1].V == V && Trail(h', Since(h), g, [V, V])
    ensures Trail(h', from, g, Images(snaps))
  {
    hide Home;
    var a := Images(snaps);
    assert a[|a| - 1] == V;
    forall k | from <= k < |h'| ensures WfDisk(h'[k], g) && Home(h'[k], g) in a {
      if k < |h| { assert h'[k] == h[k]; }
    }
  }

  /** `out` is whole pieces of the buffer, and the next one is not accessible. */
  ghost predicate StoppedAt(u: User, addr: nat, n: nat, out: seq<byte>, piece: nat)
    requires piece > 0
  {
    && |out| < n && |out| % piece == 0
    && !Mapped(u, addr + |out|, if n - |out| > piece then piece else n - |out|)
  }

  /** The console half of sys_write, in chunks of 128 bytes: the bytes given to console_putc. */
  method WriteConsole(addr: nat, n: nat, u: User) returns (r: int, out: seq<byte>)
    ensures Took(u, addr, out) && r == (if Mapped(u, addr, n) then n else -1)
    ensures if r == n then |out| == n else StoppedAt(u, addr, n, out, 128)
  {
    hide Took, Mapped;
    var left, a := n, addr;
    out := [];
    TookNone(u, addr);
    MappedJoin(u, addr, 0, 0);
    while left > 0
      invariant 0 <= left && left + |out| == n && a == addr + |out| && Took(u, addr, out) && Mapped(u, addr, |out|)
      invariant left == 0 || |out| % 128 == 0
    {
      var len := if left > 128 then 128 else left;
      if Mapped(u, addr, n) { MappedPart(u, addr, n, a, len); }
      var buf := Fetch(u, a, len);
      if buf.None? { return -1, out; }
      TookMore(u, addr, out, len);
      MappedJoin(u, addr, |out|, len);
      out := out + buf.value;
      left, a := left - len, a + len;
    }
    return n, out;
  }

  lemma MappedJoin(u: User, va: nat, a: nat, b: nat)
    ensures Mapped(u, va, a) && Mapped(u, va + a, b) ==> Mapped(u, va, a + b)
    ensures Mapped(u, va, 0)
  {
  }

  /** What sys_write of `n` bytes from `addr` to descriptor `fd`, open file `f`, comes to. */
  ghost predicate WriteResult(fd: int, n: int, u: User, addr: nat, f: nat, can: bool, data: seq<byte>, r: int) {
    if n < 0 then r == -1 && data == []
    else if fd == 1 || fd == 2 then data == [] && r == if Mapped(u, addr, n) then n else -1
    else if f == NFILE then r == -1 && data == []
    else FileResult(n, u, addr, can, data, r)
  }

  /** sys_write. `out` is what goes to the console. */
  method SysWrite(k: Files, s: nat, fd: int, addr: nat, n: int, u: User)
    returns (ok: bool, r: int, out: seq<byte>, ghost snaps: seq<Snap>, ghost data: seq<byte>, ghost i: nat,
             ghost off: nat)
    requires k.Valid() && s < Proc.NPROC
    modifies k`ft, k.fs`ic, k.fs`T, k.fs`owner, k.fs.log, k.fs.log.bc, k.fs.log.bc.disk
    ensures Chunks(k.fs.sb, snaps, i, off, data) && snaps[0] == old(Snap(k.fs.V(), k.fs.T)) && Took(u, addr, data)
    ensures Trail(k.fs.log.bc.disk.hist, Since(old(k.fs.log.bc.disk.hist)), Geo(k.fs.sb), Images(snaps))
    ensures !ok ==> n > |data| && WriteStuck(k.fs.sb, snaps[|snaps| - 1].V, off + |data|, Part(n - |data|))
    ensures ok ==> k.Valid() && snaps[|snaps| - 1] == Snap(k.fs.V(), k.fs.T)
    ensures ok ==> WriteResult(fd, n, u, addr, old(FileOf(k, s, fd)), old(CanWrite(k, FileOf(k, s, fd), i, off)),
                               data, r)
    ensures if n >= 0 && (fd == 1 || fd == 2)
            then Took(u, addr, out) && (if r == n then |out| == n else StoppedAt(u, addr, n, out, 128))
            else out == []
    ensures ok ==> k.ft == if data == [] then old(k.ft) else Advanced(old(k.ft), old(FileOf(k, s, fd)), off + |data|)
    ensures (n >= 0 && fd != 1 && fd != 2 && old(FileOf(k, s, fd)) != NFILE) || data != [] || !ok ==>
            old(AtFile(k, FileOf(k, s, fd), i, off))
  {
    hide Fs.Up, Consistent, CacheOk, Refs, Typed, Tidy, TableOk, FdsOk, SuperIs, Trail, Mapped, Chunks, Took, Images,
         Sound, WriteStuck, Part;
    k.CallShape();
    i, off, data, snaps, out := 0, 0, [], [Snap(k.fs.V(), k.fs.T)], [];
    SoundNow(k);
    StartChunks(k.fs.sb, snaps[0], i, off);
    TookNone(u, addr);
    StandsNow(k);
    NoTrail(k.fs.log.bc.disk.hist, Geo(k.fs.sb), snaps[0]);
    ok, r := true, -1;
    if n < 0 { return; }
    if fd == 1 || fd == 2 {
      r, out := WriteConsole(addr, n, u);
      return;
    }
    if fd < 0 || fd >= NOFILE || k.ofile[Fd(s, fd)] == NFILE { return; }
    var f := k.ofile[Fd(s, fd)];
    FdCloseOk(k.ofile, k.ft, k.holder, Fd(s, fd));
    HeldAt(k.ft, k.fs.ic, k.fs.T, f);
    CacheShape(k.fs.ic, k.fs.T);
    i, off := k.fs.ic.inum[k.ft.ip[f]], k.ft.off[f];
    ok, r, snaps, data := WriteChunks(k, f, addr, n, u, i, off);
  }

  /** A crash at any disk state of the trail, then recovery, itself cut and restarted any
      number of times: the recovered disk is one of the snapshots, down to every inode. */
  lemma CrashLands(sb: Superblock, h: seq<seq<Block>>, from: nat, snaps: seq<Snap>, k: nat, ds: seq<seq<Block>>)
    requires Trail(h, from, Geo(sb), Images(snaps)) && from <= k < |h|
    requires forall j {:trigger snaps[j]} :: 0 <= j < |snaps| ==> Sound(sb, snaps[j])
    requires CutRecoveries(ds, Geo(sb)) && ds[0] == h[k]
    ensures var c := ds[|ds| - 1];
            && WfDisk(c, Geo(sb))
            && var e := Last(c, RecoveryTrace(c, Geo(sb)));
               && |e| == |c| && Count(e[sb.logstart]) == 0
               && exists j :: 0 <= j < |snaps| && Mask(e, Geo(sb)) == snaps[j].V && Table(sb, e, snaps[j].T, -1)
  {
    hide Home, Mask, RecoveryTrace, DiskInode;
    var g := Geo(sb);
    CutRecoveriesSafe(ds, g, |ds| - 1);
    var c := ds[|ds| - 1];
    RecoverySafe(c, g);
    var e := Last(c, RecoveryTrace(c, g));
    var j :| 0 <= j < |snaps| && Images(snaps)[j] == Home(h[k], g);
    assert Sound(sb, snaps[j]);
    assert SbOk(sb) && |snaps[j].T| == sb.ninodes && |e| >= sb.size by { SoundTable(sb, snaps[j]); }
    forall m | 0 <= m < |snaps[j].T| ensures IBlock(sb, m) < |e| && DiskInode(sb, e, m) == snaps[j].T[m] {
      SoundInode(sb, snaps[j], e, m);
    }
  }

  lemma SoundTable(sb: Superblock, s: Snap)
    requires Sound(sb, s)
    ensures SbOk(sb) && |s.T| == sb.ninodes && |s.V| >= sb.size
  {
    hide Owned, Bits, Zeroed, Tidy;
  }

  lemma SoundInode(sb: Superblock, s: Snap, e: seq<Block>, m: nat)
    requires Sound(sb, s) && Mask(e, Geo(sb)) == s.V && m < |s.T|
    ensures SbOk(sb) && IBlock(sb, m) < |e| && DiskInode(sb, e, m) == s.T[m]
  {
    hide Owned, Bits, Zeroed, Tidy;
    assert s.T[m] == DiskInode(sb, s.V, m);
    NotInLog(sb, IBlock(sb, m));
    assert Mask(e, Geo(sb))[IBlock(sb, m)] == e[IBlock(sb, m)];
  }

  /** What a read of `n` bytes at `off` from contents `c` yields. */
  function ReadSlice(c: seq<byte>, off: nat, n: nat): seq<byte> {
    if off > |c| then [] else if off + n > |c| then c[off..] else c[off..off + n]
  }

  /** `d` is the first part of what a read at `off` yields. */
  ghost predicate ReadSoFar(c: seq<byte>, off: nat, d: seq<byte>) {
    d == [] || (off + |d| <= |c| && d == c[off..off + |d|])
  }

  lemma ReadMore(c: seq<byte>, off: nat, d: seq<byte>, m: nat)
    requires ReadSoFar(c, off, d) && off + |d| + m <= |c|
    ensures ReadSoFar(c, off, d + c[off + |d|..off + |d| + m])
  {
    assert d == [] ==> d + c[off + |d|..off + |d| + m] == c[off..off + m];
    assert d != [] ==> d + c[off + |d|..off + |d| + m] == c[off..off + |d| + m];
  }

  /** A read that goes on until it has `n` bytes or the file ends yields the slice. */
  lemma ReadEnd(c: seq<byte>, off: nat, d: seq<byte>, n: nat)
    requires ReadSoFar(c, off, d) && |d| <= n
    ensures d <= ReadSlice(c, off, n)
    ensures |d| == n || off + |d| >= |c| ==> d == ReadSlice(c, off, n)
  {
    if d != [] && off + n > |c| { assert c[off..][..|d|] == d; }
  }

  /** fileread and copyout: one round of sys_read. */
  method ReadRound(k: Files, f: nat, a: nat, m: nat, u: User, ghost i: nat)
    returns (r: int, fits: bool, u': User, ghost buf: seq<byte>)
    requires k.Valid() && f < NFILE && k.ft.ref[f] == 1 && k.ft.ip[f] < NINODE && i == k.fs.ic.inum[k.ft.ip[f]]
             && m <= CHUNK
    modifies k`ft, k.fs`ic, k.fs`T, k.fs`owner, k.fs.log, k.fs.log.bc
    ensures k.Valid() && k.fs.V() == old(k.fs.V()) && k.fs.T == old(k.fs.T) && k.fs.ic == old(k.fs.ic)
    ensures i < |k.fs.T| && WfFile(k.fs.T[i]) && ReadOf(Content(k.fs.V(), k.fs.T[i]), old(k.ft), k.ft, f, m, r, buf)
    ensures if r <= 0 then u' == u else fits == Mapped(u, a, r) && u' == Stored(u, a, buf)
  {
    hide Fs.Up, Consistent, CacheOk, Refs, Typed, Tidy, TableOk, FdsOk, SuperIs, Mapped, Stored, Content, ReadOf;
    var bytes;
    r, bytes := k.Fileread(f, m, i);
    buf, fits, u' := bytes, true, u;
    if r > 0 {
      fits := Mapped(u, a, r);
      u' := Stored(u, a, bytes);
    }
  }

  /** A round of sys_read with its account of what has been read so far, `d0` of contents `c`. */
  method ReadNext(k: Files, f: nat, a: nat, m: nat, u: User, ghost i: nat, ghost u0: User, ghost addr: nat,
      ghost c: seq<byte>, ghost off: nat, ghost d0: seq<byte>)
    returns (r: int, fits: bool, u': User, ghost d: seq<byte>)
    requires k.Valid() && f < NFILE && k.ft.ref[f] == 1 && k.ft.ip[f] < NINODE && i == k.fs.ic.inum[k.ft.ip[f]]
             && 0 < m <= CHUNK
    requires i < |k.fs.T| && c == Content(k.fs.V(), k.fs.T[i]) && a == addr + |d0|
    requires ReadSoFar(c, off, d0) && Shape(k.ft) && k.ft.off[f] == off + |d0| && u == Stored(u0, addr, d0)
             && Mapped(u0, addr, |d0|)
    modifies k`ft, k.fs`ic, k.fs`T, k.fs`owner, k.fs.log, k.fs.log.bc
    ensures k.Valid() && k.fs.V() == old(k.fs.V()) && k.fs.T == old(k.fs.T) && k.fs.ic == old(k.fs.ic)
    ensures Shape(old(k.ft)) && k.ft == old(k.ft).(off := old(k.ft.off)[f := off + |d|])
    ensures ReadSoFar(c, off, d) && u' == Stored(u0, addr, d)
    ensures if r <= 0 then d == d0
            else |d| == |d0| + r && r <= m && fits == Mapped(u0, addr, |d|) && old(k.ft.readable[f])
    ensures r < m && old(k.ft.readable[f]) ==> off + |d| >= |c|
  {
    hide Fs.Up, Consistent, CacheOk, Refs, Typed, Tidy, TableOk, FdsOk, SuperIs, Mapped, Stored, Content, ReadSoFar;
    ghost var t, buf := k.ft, [];
    k.fs.SizeOk(i);
    r, fits, u', buf := ReadRound(k, f, a, m, u, i);
    d := d0;
    if r <= 0 {
      assert t == t.(off := t.off[f := off + |d|]);
      return;
    }
    MappedMore(u0, addr, d, a, r);
    StoredConcat(u0, addr, d, buf);
    ReadMore(c, off, d, r);
    d := d + buf;
  }

  /** What reading `n` bytes of file `i` at `off` comes to: all that there is up to `n` bytes, or -1
      exactly if some of what was read could not be stored, which then ends with the first such chunk;
      nothing if the file may not be read. */
  ghost predicate ReadResult(now: Snap, i: nat, off: nat, n: nat, u: User, addr: nat, can: bool, d: seq<byte>, r: int) {
    && i < |now.T| && WfFile(now.T[i])
    && var s := ReadSlice(Content(now.V, now.T[i]), off, n);
       && d <= s && r == (if Mapped(u, addr, |d|) then |d| else -1) && (!can ==> d == [])
       && (r != -1 && can ==> d == s)
       && (r == -1 ==> LastChunk(s, d) && Mapped(u, addr, (|d| - 1) / 512 * 512))
  }

  /** The file half of sys_read: the file's bytes `d` at its offset, up to `n` of them, go to the
      user's memory and the offset moves past them; when an address is not accessible the rest
      of the bytes are not read and the result is -1. */
  method ReadChunks(k: Files, f: nat, addr: nat, n: nat, u: User, ghost i: nat)
    returns (r: int, u': User, ghost d: seq<byte>)
    requires k.Valid() && f < NFILE && k.ft.ref[f] == 1 && k.ft.ip[f] < NINODE && i == k.fs.ic.inum[k.ft.ip[f]]
             && n < U32
    modifies k`ft, k.fs`ic, k.fs`T, k.fs`owner, k.fs.log, k.fs.log.bc
    ensures k.Valid() && k.fs.V() == old(k.fs.V()) && k.fs.T == old(k.fs.T) && k.fs.ic == old(k.fs.ic) && i < |k.fs.T|
    ensures u' == Stored(u, addr, d) && Shape(old(k.ft))
            && k.ft == old(k.ft).(off := old(k.ft.off)[f := old(k.ft.off[f]) + |d|])
    ensures ReadResult(Snap(k.fs.V(), k.fs.T), i, old(k.ft.off[f]), n, u, addr, old(k.ft.readable[f]), d, r)
  {
    hide Fs.Up, Consistent, CacheOk, Refs, Typed, Tidy, TableOk, FdsOk, SuperIs, Mapped, Stored, Content, ReadSlice,
         ReadSoFar;
    TableShape(k.ft, k.fs.ic, k.fs.T);
    HeldAt(k.ft, k.fs.ic, k.fs.T, f);
    k.fs.SizeOk(i);
    ghost var t0, off0, c := k.ft, k.ft.off[f], Content(k.fs.V(), k.fs.T[i]);
    u', d := u, [];
    StoredNone(u, addr);
    MappedJoin(u, addr, 0, 0);
    ReadNone(c, off0);
    assert t0 == t0.(off := t0.off[f := off0]);
    var left, total, a := n, 0, addr;
    while left > 0
      invariant 0 <= left && left + total == n && |d| == total && a == addr + total
      invariant k.Valid() && k.fs.V() == old(k.fs.V()) && k.fs.T == old(k.fs.T) && k.fs.ic == old(k.fs.ic)
      invariant k.ft == t0.(off := t0.off[f := off0 + total]) && u' == Stored(u, addr, d) && Mapped(u, addr, total)
      invariant ReadSoFar(c, off0, d) && (total > 0 ==> t0.readable[f]) && (left > 0 ==> total % 512 == 0)
    {
      var m := if left > CHUNK then CHUNK else left;
      var fits;
      r, fits, u', d := ReadNext(k, f, a, m, u', i, u, addr, c, off0, d);
      ReadEnd(c, off0, d, n);
      if r <= 0 { return total, u', d; }
      if !fits {
        ChunkStart(total, r);
        return -1, u', d;
      }
      total, a, left := total + r, a + r, left - r;
      if r < m { break; }
    }
    ReadEnd(c, off0, d, n);
    return total, u', d;
  }

  /** `d` is what has been read of `s` up to the end of a chunk. */
  ghost predicate LastChunk(s: seq<byte>, d: seq<byte>) {
    d != [] && d <= s && (|d| % 512 == 0 || d == s)
  }

  lemma ChunkStart(total: nat, r: nat)
    requires total % 512 == 0 && 0 < r <= 512
    ensures (total + r - 1) / 512 * 512 == total && (r == 512 ==> (total + r) % 512 == 0)
  {
    assert (total + r - 1) / 512 == total / 512;
  }

  lemma ReadNone(c: seq<byte>, off: nat)
    ensures ReadSoFar(c, off, [])
  {
  }

  lemma StoredNone(u: User, addr: nat)
    ensures Stored(u, addr, []) == u
  {
  }

  /** Storing does not change what is accessible. */
  lemma MappedMore(u: User, addr: nat, d: seq<byte>, a: nat, n: nat)
    requires Mapped(u, addr, |d|) && a == addr + |d|
    ensures Mapped(Stored(u, addr, d), a, n) == Mapped(u, a, n)
    ensures Mapped(u, addr, |d| + n) == Mapped(u, a, n)
  {
    StoredAt(u, addr, d, 0);
    if Mapped(u, a, n) { MappedJoin(u, addr, |d|, n); }
    if Mapped(u, addr, |d| + n) { MappedPart(u, addr, |d| + n, a, n); }
  }

  /** sys_read. */
  method SysRead(k: Files, s: nat, fd: int, addr: nat, n: int, u: User)
    returns (r: int, u': User, ghost d: seq<byte>, ghost i: nat, ghost off: nat)
    requires k.Valid() && s < Proc.NPROC && n < U32
    modifies k`ft, k.fs`ic, k.fs`T, k.fs`owner, k.fs.log, k.fs.log.bc
    ensures k.Valid() && k.fs.V() == old(k.fs.V()) && k.fs.T == old(k.fs.T) && k.fs.ic == old(k.fs.ic)
    ensures u' == Stored(u, addr, d)
    ensures n < 0 || fd < 0 || old(FileOf(k, s, fd)) == NFILE ==>
            k.ft == old(k.ft) && u' == u && r == if fd == 0 && n >= 0 then 0 else -1
    ensures n >= 0 && fd != 0 && old(FileOf(k, s, fd)) != NFILE ==>
              && old(AtFile(k, FileOf(k, s, fd), i, off))
              && ReadResult(Snap(k.fs.V(), k.fs.T), i, off, n, u, addr, old(CanRead(k, FileOf(k, s, fd))), d, r)
              && k.ft == Advanced(old(k.ft), old(FileOf(k, s, fd)), off + |d|)
  {
    hide Fs.Up, Consistent, CacheOk, Refs, Typed, Tidy, TableOk, FdsOk, SuperIs, Mapped, Stored, Content;
    k.CallShape();
    StoredNone(u, addr);
    r, u', d, i, off := -1, u, [], 0, 0;
    if n < 0 { return; }
    if fd == 0 { return 0, u, [], 0, 0; }
    if fd < 0 || fd >= NOFILE || k.ofile[Fd(s, fd)] == NFILE { return; }
    var f := k.ofile[Fd(s, fd)];
    FdCloseOk(k.ofile, k.ft, k.holder, Fd(s, fd));
    HeldAt(k.ft, k.fs.ic, k.fs.T, f);
    CacheShape(k.fs.ic, k.fs.T);
    i, off := k.fs.ic.inum[k.ft.ip[f]], k.ft.off[f];
    r, u', d := ReadChunks(k, f, addr, n, u, i);
  }

  ghost predicate CanRead(k: Files, f: nat)
    reads k
  {
    Shape(k.ft) && f < NFILE && k.ft.readable[f]
  }
}
