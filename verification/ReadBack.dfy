/** What the file system calls come to together: a file that is written under a name is read back under
    that name. */
module ReadBack {
  import opened Bytes
  import opened LogSpec
  import opened FsSpec
  import opened FsState
  import opened Dir
  import opened Fs
  import opened NameOps
  import opened NameLaws
  import opened UserMem
  import opened SysFile
  import opened SysProc
  import Proc

  /** How far a program gets that opens a file to write it, writes, closes, opens it to read, reads. */
  datatype Stop = NotOpened | NotWritten | NotReopened | Done

  const CREATE_WRITE := 0x201     // O_CREATE | O_WRONLY

  /** Whatever sys_open has opened or made is what the path stands for afterwards. */
  lemma OpenNames(V: seq<Block>, T: seq<Dinode>, path: seq<byte>, omode: nat, V': seq<Block>, T': seq<Dinode>, i: nat)
    requires var v := Decide(V, T, Some(path), omode); !v.Refused? && OpenEffect(v, V, T, V', T', i)
    ensures NameI(V', T', path) == i != 0
  {
    hide NameI, NameIParent, Next, Comps, Created, Walk;
    OpenDecides(V, T, path, omode);
    ParentHas(V, T, path);
    var v := Decide(V, T, Some(path), omode);
    if v.Fresh? {
      assert EndsIn(V, T, path, v.d, v.key);
      CreateVisible(V, T, V', T', v.d, v.key, i, path);
      CreatedNext(V, T, V', T', v.d, v.key, i, v.d, v.key);
    }
  }

  lemma {:induction false} SameWalk(V: seq<Block>, T: seq<Dinode>, V': seq<Block>, T': seq<Dinode>, i: nat,
      comps: seq<seq<byte>>)
    requires forall j: nat :: Listing(V', T', j) == Listing(V, T, j)
    ensures Walk(V', T', i, comps) == Walk(V, T, i, comps)
    decreases |comps|
  {
    if comps != [] && i != 0 { SameWalk(V, T, V', T', Next(V, T, i, comps[0]), comps[1..]); }
  }

  /** Writing a file moves no name. */
  lemma WriteNames(V: seq<Block>, T: seq<Dinode>, V': seq<Block>, T': seq<Dinode>, i: nat, off: nat, src: seq<byte>,
      path: seq<byte>)
    requires FileWrote(V, T, V', T', i, off, src) && T[i].typ != T_DIR
    ensures NameI(V', T', path) == NameI(V, T, path)
  {
    hide Comps, DirMap, Content, Splice;
    forall j: nat ensures Listing(V', T', j) == Listing(V, T, j) {
      if j < |T| && j != i { assert T'[j] == T[j]; }
    }
    SameWalk(V, T, V', T', ROOTINO, Comps(path));
  }

  /** What sys_write of all of `data` at the start of a file has done. */
  lemma AllChunks(sb: Superblock, snaps: seq<Snap>, i: nat, data: seq<byte>)
    requires Chunks(sb, snaps, i, 0, data) && |snaps| > 0
    ensures var a, b := snaps[0], snaps[|snaps| - 1];
            if |snaps| == 1 then data == [] && b == a else FileWrote(a.V, a.T, b.V, b.T, i, 0, data)
  {
    hide Sound, Splice, Content;
    if |snaps| > 1 {
      assert data[..Cut(|snaps| - 1, |data|)] == data;
      assert SnapWrote(snaps[0], snaps[|snaps| - 1], i, 0, data);
    }
  }

  /** The file begins with what was written. */
  lemma Begins(a: Snap, b: Snap, i: nat, data: seq<byte>)
    requires i < |b.T| && WfFile(b.T[i])
    requires (b == a && data == []) || FileWrote(a.V, a.T, b.V, b.T, i, 0, data)
    ensures ReadSlice(Content(b.V, b.T[i]), 0, |data|) == data
  {
    var c := Content(b.V, b.T[i]);
    if data != [] {
      var c0 := Content(a.V, a.T[i]);
      SpliceLen(c0, 0, data);
      forall k | 0 <= k < |data| ensures c[k] == data[k] { SpliceByte(c0, 0, data, k); }
    }
    assert c[0..|data|] == data;
  }

  /** A file and a descriptor are free: sys_open does not fail for want of them. */
  lemma RoomToOpen(t: FTable, o: seq<nat>, t': FTable, o': seq<nat>, s: nat, q: nat, omode: nat, r: int, f: nat,
      fd: nat)
    requires Attached(t, o, t', o', s, q, omode, r) && f < NFILE && t.ref[f] == 0 && 3 <= fd < NOFILE
             && o[Fd(s, fd)] == NFILE
    ensures r != -1
  {
  }

  /** No file structure is free, or no descriptor of process `s` from 3 on. */
  ghost predicate FullTables(t: FTable, o: seq<nat>, s: nat) {
    && Shape(t) && |o| == 64 * 16 && s < 64
    && ((forall f :: 0 <= f < 100 ==> t.ref[f] != 0) || (forall fd :: 3 <= fd < 16 ==> o[Fd(s, fd)] != 100))
  }

  lemma NoRoom(t: FTable, o: seq<nat>, t': FTable, o': seq<nat>, s: nat, q: nat, omode: nat)
    requires Attached(t, o, t', o', s, q, omode, -1)
    ensures FullTables(t, o, s)
  {
  }

  /** The same files are open, on the same inode slots. */
  ghost predicate SameOpen(t: FTable, t': FTable) {
    && Shape(t) && Shape(t')
    && forall f {:trigger t'.ref[f]} :: 0 <= f < NFILE ==>
         t'.ref[f] == t.ref[f] && (t.ref[f] == 1 ==> t'.ip[f] == t.ip[f])
  }

  /** The open files say how many references each slot has. */
  lemma RefsByFiles(t: FTable, c: ICache, T: seq<Dinode>, t': FTable, c': ICache, T': seq<Dinode>)
    requires TableOk(t, c, T) && TableOk(t', c', T')
    requires SameOpen(t, t')
    ensures c'.ref == c.ref && (Tight(c') <==> Tight(c))
  {
    forall f | 0 <= f < NFILE ensures Holds(t')[f] == Holds(t)[f] {
      assert t'.ref[f] == t.ref[f];
    }
    assert Holds(t') == Holds(t);
    forall q | 0 <= q < NINODE ensures c'.ref[q] == c.ref[q] { }
    assert c'.ref == c.ref;
  }

  /** The whole of sys_write to a file just opened for writing. */
  method WriteAll(k: Files, s: nat, fd: int, addr: nat, n: nat, u: User, ghost i: nat) returns (ok: bool, r: int)
    requires k.Valid() && s < Proc.NPROC && n < 0x8000_0000 && Mapped(u, addr, n)
    requires Ready(k.ft, k.ofile, k.fs.ic, s, fd, i)
    modifies k`ft, k.fs`ic, k.fs`T, k.fs`owner, k.fs.log, k.fs.log.bc, k.fs.log.bc.disk
    ensures !ok ==> n > 0
    ensures ok ==> k.Valid() && r == n && Holding(k.fs.V(), k.fs.T, i, u, addr, n)
    ensures ok ==> forall path :: NameI(k.fs.V(), k.fs.T, path) == old(NameI(k.fs.V(), k.fs.T, path))
    ensures ok ==> Shape(old(k.ft)) && k.ft == old(k.ft).(off := k.ft.off)
  {
    hide Fs.Up, Consistent, CacheOk, Refs, Typed, Tidy, TableOk, FdsOk, SuperIs, Trail, Mapped, Chunks, Took, Sound,
         WriteStuck, Part, Content, NameI, Home, Since, FileWrote;
    ghost var V0, T0, t0 := k.fs.V(), k.fs.T, k.ft;
    HeldAt(k.ft, k.fs.ic, k.fs.T, FileOf(k, s, fd));
    var out;
    ghost var snaps, data, j, off;
    ok, r, out, snaps, data, j, off := SysWrite(k, s, fd, addr, n, u);
    if !ok { return; }
    ChunksLen(k.fs.sb, snaps, j, off, data);
    AllChunks(k.fs.sb, snaps, i, data);
    k.fs.SizeOk(i);
    assert t0 == t0.(off := t0.off);
    if |snaps| > 1 {
      forall path ensures NameI(k.fs.V(), k.fs.T, path) == NameI(V0, T0, path) {
        WriteNames(V0, T0, k.fs.V(), k.fs.T, i, 0, data, path);
      }
    }
    Begins(snaps[0], snaps[|snaps| - 1], i, data);
    TookBytes(u, addr, data);
  }

  /** Descriptor `fd` is of a file open for writing, inode `i`, at its start. */
  ghost predicate Ready(t: FTable, o: seq<nat>, c: ICache, s: nat, fd: int, i: nat) {
    && Shape(t) && |o| == Proc.NPROC * NOFILE && 3 <= fd < NOFILE && s < Proc.NPROC
    && var f := o[Fd(s, fd)];
       && f < NFILE && t.ref[f] == 1 && t.writable[f] && t.off[f] == 0 && t.ip[f] < |c.inum| && c.inum[t.ip[f]] == i
  }

  lemma ReadyIs(t: FTable, o: seq<nat>, t': FTable, o': seq<nat>, c: ICache, s: nat, fd: int, i: nat)
    requires OpenedFd(t, o, t', o', c, s, fd, i, CREATE_WRITE) && s < Proc.NPROC && |o| == Proc.NPROC * NOFILE
    ensures Ready(t', o', c, s, fd, i)
  {
  }

  /** After the file has been closed again, the same files are open as before. */
  lemma ClosedAgain(t0: FTable, o0: seq<nat>, t1: FTable, o1: seq<nat>, c1: ICache, t2: FTable, c2: ICache, t3: FTable,
      o3: seq<nat>, c3: ICache, s: nat, fd: int, i: nat)
    requires OpenedFd(t0, o0, t1, o1, c1, s, fd, i, CREATE_WRITE) && s < Proc.NPROC && |o0| == Proc.NPROC * NOFILE
    requires t2 == t1.(off := t2.off) && ClosedFd(t2, o1, c2, t3, o3, c3, s, fd)
    ensures Shape(t3) && o3 == o0 && 3 <= fd < NOFILE && o1[Fd(s, fd)] < NFILE && t3.ref[o1[Fd(s, fd)]] == 0
            && o3[Fd(s, fd)] == NFILE
    ensures SameOpen(t0, t3)
  {
    forall f | 0 <= f < NFILE ensures t3.ref[f] == t0.ref[f] && (t0.ref[f] == 1 ==> t3.ip[f] == t0.ip[f]) {
      assert t1.ref[f] == t2.ref[f];
    }
  }

  /** File `i` begins with the `n` bytes of user memory at `addr`. */
  ghost predicate Holding(V: seq<Block>, T: seq<Dinode>, i: nat, u: User, addr: nat, n: nat) {
    i < |T| && WfFile(T[i]) && Fetch(u, addr, n) == Some(ReadSlice(Content(V, T[i]), 0, n))
  }

  lemma TookBytes(u: User, addr: nat, data: seq<byte>)
    requires Took(u, addr, data)
    ensures Fetch(u, addr, |data|) == Some(data)
  {
    forall b | 0 <= b < |data| ensures addr + b in u && u[addr + b] == data[b] { assert (addr + b) - addr == b; }
    forall a | addr <= a < addr + |data| ensures a in u { assert addr + (a - addr) in u; }
    assert Mapped(u, addr, |data|);
    assert Fetch(u, addr, |data|).value == data;
  }

  /** All of the memory that a file is to be read into is accessible. */
  lemma GotAll(u: User, to: nat, u0: User, addr: nat, n: nat, c: seq<byte>, d: seq<byte>)
    requires Mapped(u, to, n) && d <= ReadSlice(c, 0, n) && Fetch(u0, addr, n) == Some(ReadSlice(c, 0, n))
    ensures Mapped(u, to, |d|)
    ensures d == ReadSlice(c, 0, n) ==> |d| == n && Fetch(Stored(u, to, d), to, n) == Fetch(u0, addr, n)
  {
    if d == ReadSlice(c, 0, n) { StoreFetch(u, to, d); }
  }

  lemma Reopens(V: seq<Block>, T: seq<Dinode>, path: seq<byte>)
    requires NameI(V, T, path) != 0
    ensures Decide(V, T, Some(path), 0) == Existing(NameI(V, T, path))
  {
    hide NameI, NameIParent, Next, Comps;
    OpenDecides(V, T, path, 0);
  }

  lemma StuckTight(sb: Superblock, V: seq<Block>, T: seq<Dinode>, c: ICache, i: nat)
    requires OpenStuck(Existing(i), sb, V, T, c)
    ensures Tight(c)
  {
  }

  /** sys_open of a name to read it, and sys_read: it yields the bytes that `u0` has at `addr`, if the
      file begins with them. */
  method ReadUnder(k: Files, s: nat, path: seq<byte>, to: nat, n: nat, u: User, name0: Name, ghost u0: User,
      ghost addr: nat, ghost f: nat, ghost fd0: nat)
    returns (ok: bool, r: int, u': User)
    requires k.Valid() && s < Proc.NPROC && IsPath(path) && n < 0x8000_0000 && Mapped(u, to, n)
    requires NameI(k.fs.V(), k.fs.T, path) != 0 && Holding(k.fs.V(), k.fs.T, NameI(k.fs.V(), k.fs.T, path), u0, addr, n)
    requires Shape(k.ft) && |k.ofile| == Proc.NPROC * NOFILE && f < NFILE && k.ft.ref[f] == 0 && 3 <= fd0 < NOFILE
             && k.ofile[Fd(s, fd0)] == NFILE
    modifies k, k.fs, k.fs.log, k.fs.log.bc, k.fs.log.bc.disk
    ensures !ok ==> Tight(old(k.fs.ic))
    ensures ok ==> k.Valid() && r == n && Fetch(u', to, n) == Fetch(u0, addr, n)
  {
    hide Fs.Up, Consistent, CacheOk, Refs, Typed, Tidy, TableOk, FdsOk, SuperIs, Trail, Mapped, Content, NameI, Home,
         Since, Stored, Fetch, Decide, Tight, OneMore, SameRefs, OpenStuck, Attached, ReadSlice;
    u', r := u, -1;
    Reopens(k.fs.V(), k.fs.T, path);
    ghost var t, o, i0, V0, T0, c0 := k.ft, k.ofile, NameI(k.fs.V(), k.fs.T, path), k.fs.V(), k.fs.T, k.fs.ic;
    ghost var i, q;
    var fd;
    ok, fd, i, q := k.SysOpen(s, Some(path), 0, name0);
    if !ok {
      StuckTight(k.fs.sb, V0, T0, c0, i0);
      return;
    }
    RoomToOpen(t, o, k.ft, k.ofile, s, q, 0, fd, f, fd0);
    ghost var d, j, off;
    r, u', d, j, off := SysRead(k, s, fd, to, n, u);
    GotAll(u, to, u0, addr, n, Content(k.fs.V(), k.fs.T[i0]), d);
  }

  /** sys_open of a name to write it, sys_write, and sys_close. */
  method WriteUnder(k: Files, s: nat, path: seq<byte>, addr: nat, n: nat, u: User, name0: Name)
    returns (stop: Stop, ghost f: nat, ghost fd0: nat)
    requires k.Valid() && s < Proc.NPROC && IsPath(path) && n < 0x8000_0000 && Mapped(u, addr, n)
    modifies k, k.fs, k.fs.log, k.fs.log.bc, k.fs.log.bc.disk
    ensures stop == NotOpened ==>
              var v := Decide(old(k.fs.V()), old(k.fs.T), Some(path), CREATE_WRITE);
              v == Refused || OpenStuck(v, k.fs.sb, old(k.fs.V()), old(k.fs.T), old(k.fs.ic))
              || FullTables(old(k.ft), old(k.ofile), s)
    ensures stop != NotReopened && (stop == NotWritten ==> n > 0)
    ensures stop == Done ==> k.Valid() && (Tight(k.fs.ic) <==> Tight(old(k.fs.ic)))
    ensures stop == Done ==> NameI(k.fs.V(), k.fs.T, path) != 0
                             && Holding(k.fs.V(), k.fs.T, NameI(k.fs.V(), k.fs.T, path), u, addr, n)
    ensures stop == Done ==> Shape(k.ft) && |k.ofile| == Proc.NPROC * NOFILE && f < NFILE && k.ft.ref[f] == 0
                             && 3 <= fd0 < NOFILE && k.ofile[Fd(s, fd0)] == NFILE
  {
    hide Fs.Up, Consistent, CacheOk, Refs, Typed, Tidy, TableOk, FdsOk, SuperIs, Trail, Mapped, Content, NameI, Home,
         Since, Fetch, OpenEffect, Decide, Tight, OneMore, SameRefs, OpenStuck, Attached, ReadSlice, Holding, SameOpen,
         OpenedFd, ClosedFd;
    ghost var t0, o0, c0, V0, T0 := k.ft, k.ofile, k.fs.ic, k.fs.V(), k.fs.T;
    k.CallShape();
    var ok, fd, r;
    ghost var i, q;
    f, fd0 := 0, 0;
    ok, fd, i, q := k.SysOpen(s, Some(path), CREATE_WRITE, name0);
    if !ok { return NotOpened, f, fd0; }
    if fd == -1 {
      if !Decide(V0, T0, Some(path), CREATE_WRITE).Refused? {
        NoRoom(t0, o0, k.ft, k.ofile, s, q, CREATE_WRITE);
      }
      return NotOpened, f, fd0;
    }
    OpenNames(V0, T0, path, CREATE_WRITE, k.fs.V(), k.fs.T, i);
    ghost var t1, o1, c1 := k.ft, k.ofile, k.fs.ic;
    ReadyIs(t0, o0, t1, o1, c1, s, fd, i);
    f, fd0 := o1[Fd(s, fd)], fd;
    ok, r := WriteAll(k, s, fd, addr, n, u, i);
    if !ok { return NotWritten, f, fd0; }
    ghost var t2, c2 := k.ft, k.fs.ic;
    ok, r := k.SysClose(s, fd);
    ClosedAgain(t0, o0, t1, o1, c1, t2, c2, k.ft, k.ofile, k.fs.ic, s, fd, i);
    RefsByFiles(t0, c0, T0, k.ft, k.fs.ic, k.fs.T);
    return Done, f, fd0;
  }

  /** A process opens a file under a name to write it, making it if there is none, writes `n` bytes,
      closes it, opens the name to read, and reads `n` bytes: it gets back what it wrote, whatever the
      file was before. It fails to get there only by what stops the single calls: the first open, a
      write for want of room, or the second open for want of two inode slots. */
  method WriteThenRead(k: Files, s: nat, path: seq<byte>, addr: nat, to: nat, n: nat, u: User, name0: Name)
    returns (stop: Stop, r: int, u': User)
    requires k.Valid() && s < Proc.NPROC && IsPath(path) && n < 0x8000_0000 && Mapped(u, addr, n) && Mapped(u, to, n)
    modifies k, k.fs, k.fs.log, k.fs.log.bc, k.fs.log.bc.disk
    ensures stop == NotOpened ==>
              var v := Decide(old(k.fs.V()), old(k.fs.T), Some(path), CREATE_WRITE);
              v == Refused || OpenStuck(v, k.fs.sb, old(k.fs.V()), old(k.fs.T), old(k.fs.ic))
              || FullTables(old(k.ft), old(k.ofile), s)
    ensures stop == NotWritten ==> n > 0
    ensures stop == NotReopened ==> Tight(old(k.fs.ic))
    ensures stop == Done ==> k.Valid() && r == n && Fetch(u', to, n) == Fetch(u, addr, n)
  {
    hide Fs.Up, Consistent, CacheOk, Refs, Typed, Tidy, TableOk, FdsOk, SuperIs, Trail, Mapped, NameI, Home, Fetch,
         Tight, Holding, OpenStuck, Decide, FullTables;
    ghost var f, fd0;
    stop, f, fd0 := WriteUnder(k, s, path, addr, n, u, name0);
    r, u' := -1, u;
    if stop != Done { return; }
    var ok;
    ok, r, u' := ReadUnder(k, s, path, to, n, u, name0, u, addr, f, fd0);
    if !ok { stop := NotReopened; }
  }

  /** A name that has been unlinked stands for nothing. */
  lemma UnlinkNames(V: seq<Block>, T: seq<Dinode>, V': seq<Block>, T': seq<Dinode>, path: seq<byte>)
    requires Removed(Aim(V, T, Some(path)), V, T, V', T', 0)
    ensures NameI(V, T, path) != 0 && NameI(V', T', path) == 0
  {
    hide NameI, NameIParent, Next, Comps, Unlinked;
    UnlinkDecides(V, T, path);
    ParentHas(V, T, path);
    var t := UnlinkTarget(V, T, path);
    assert EndsIn(V, T, path, t.d, t.key);
    UnlinkFile(V, T, V', T', t.d, t.key, t.j);
    UnlinkVisible(V, T, V', T', t.d, t.key, t.j, path);
  }

  lemma UnlinkFile(V: seq<Block>, T: seq<Dinode>, V': seq<Block>, T': seq<Dinode>, d: nat, key: seq<byte>, j: nat)
    requires Unlinked(V, T, V', T', d, key, j)
    ensures 0 < j < |T|
  {
    hide Listing, Content;
  }

  lemma Missing(V: seq<Block>, T: seq<Dinode>, path: seq<byte>, omode: nat)
    requires NameI(V, T, path) == 0 && omode / 0x200 % 2 == 0
    ensures Decide(V, T, Some(path), omode) == Refused
  {
    hide NameI, NameIParent, Next, Comps;
    OpenDecides(V, T, path, omode);
  }

  /** sys_unlink of a file that is not open, and sys_open of the same name without O_CREATE: the name is
      gone. The unlink fails only if the name stands for nothing, for a directory, or is one of the dot
      names. */
  method UnlinkThenOpen(k: Files, s: nat, path: seq<byte>, omode: nat, name0: Name) returns (ok: bool, r: int, fd: int)
    requires k.Valid() && s < Proc.NPROC && IsPath(path) && omode / 0x200 % 2 == 0
    requires Spared(Aim(k.fs.V(), k.fs.T, Some(path)), k.fs.T, k.fs.refs)
    modifies k, k.fs, k.fs.log, k.fs.log.bc, k.fs.log.bc.disk
    ensures ok ==> k.Valid() && (r == 0 || r == -1)
    ensures ok && r == 0 ==> fd == -1 && old(NameI(k.fs.V(), k.fs.T, path)) != 0
    ensures ok && r == -1 ==> old(UnlinkTarget(k.fs.V(), k.fs.T, path)) == NoTarget
  {
    hide Fs.Up, Consistent, CacheOk, Refs, Typed, Tidy, TableOk, FdsOk, SuperIs, Trail, NameI, Home, Since, OpenEffect,
         Decide, Tight, OneMore, SameRefs, OpenStuck, Attached, Spared, Unlinked, UnlinkTarget, FreeBlocks;
    ghost var V0, T0 := k.fs.V(), k.fs.T;
    fd := -1;
    ghost var w;
    ok, r, w := k.SysUnlink(Some(path), name0);
    if !ok || r != 0 { return; }
    UnlinkNames(V0, T0, k.fs.V(), k.fs.T, path);
    Missing(k.fs.V(), k.fs.T, path, omode);
    ghost var i, q;
    ok, fd, i, q := k.SysOpen(s, Some(path), omode, name0);
  }
}
