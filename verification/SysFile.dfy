/** The file table of kernel/file.c and the system calls of kernel/sysfile.c. */
module SysFile {
  import opened Bytes
  import opened LogSpec
  import opened FsSpec
  import opened FsState
  import opened Dir
  import opened Fs
  import opened NameOps
  import opened UserMem
  import Layout
  import Proc

  const NFILE := 100
  const NOFILE := 16
  const FD_NONE := 0
  const FD_INODE := 1

  /** ftable, one sequence per field of `struct file`. */
  datatype FTable = FTable(
    typ: seq<nat>, ref: seq<nat>, readable: seq<bool>, writable: seq<bool>, ip: seq<nat>, off: seq<nat>)

  predicate Shape(t: FTable) {
    |t.typ| == |t.ref| == |t.readable| == |t.writable| == |t.ip| == |t.off| == NFILE
  }

  /** The inode slot that each open file holds; NINODE for none. */
  ghost function Holds(t: FTable): (h: seq<nat>)
    requires Shape(t)
    ensures |h| == NFILE
  {
    seq(NFILE, f requires 0 <= f < NFILE => if t.ref[f] > 0 && t.typ[f] == FD_INODE then t.ip[f] else NINODE)
  }

  /** An open file holds a loaded inode, not a directory if it is writable, and every inode
      slot has as many references as open files hold it. */
  ghost predicate TableOk(t: FTable, c: ICache, T: seq<Dinode>) {
    && Shape(t) && |c.inum| == |c.ref| == |c.valid| == NINODE
    && (forall f {:trigger t.ref[f]} :: 0 <= f < NFILE ==>
          && t.ref[f] <= 1 && (t.ref[f] == 0 ==> t.typ[f] == FD_NONE)
          && (t.ref[f] == 1 ==>
                && t.typ[f] == FD_INODE && t.ip[f] < NINODE && t.off[f] < U32 && c.valid[t.ip[f]]
                && c.inum[t.ip[f]] < |T|
                && (t.writable[f] ==> T[c.inum[t.ip[f]]].typ != T_DIR)))
    && (forall q {:trigger c.ref[q]} :: 0 <= q < NINODE ==> c.ref[q] == multiset(Holds(t))[q])
  }

  /** File descriptors and open files are in one-to-one correspondence. `proc[s].ofile[fd]` is
      element `Fd(s, fd)`; NFILE is the null pointer. */
  ghost predicate FdsOk(ofile: seq<nat>, t: FTable, holder: seq<nat>) {
    && |ofile| == Proc.NPROC * NOFILE && |holder| == |t.ref| == NFILE
    && (forall k {:trigger ofile[k]} :: 0 <= k < |ofile| && ofile[k] != NFILE ==>
          ofile[k] < NFILE && t.ref[ofile[k]] == 1 && holder[ofile[k]] == k)
    && (forall f {:trigger t.ref[f]} :: 0 <= f < NFILE && t.ref[f] > 0 ==>
          holder[f] < |ofile| && ofile[holder[f]] == f)
  }

  /** fileclose of a file with one reference. */
  function Closed(t: FTable, f: nat): FTable
    requires Shape(t) && f < NFILE && t.ref[f] > 0
  {
    t.(ref := t.ref[f := t.ref[f] - 1], typ := if t.ref[f] == 1 then t.typ[f := FD_NONE] else t.typ)
  }

  lemma HeldAt(t: FTable, c: ICache, T: seq<Dinode>, f: nat)
    requires TableOk(t, c, T) && f < NFILE && t.ref[f] == 1
    ensures t.typ[f] == FD_INODE && t.ip[f] < NINODE && c.ref[t.ip[f]] > 0 && c.valid[t.ip[f]] && c.inum[t.ip[f]] < |T|
    ensures t.off[f] < U32 && (t.writable[f] ==> T[c.inum[t.ip[f]]].typ != T_DIR)
  {
    assert Holds(t)[f] == t.ip[f];
    assert t.ip[f] in multiset(Holds(t));
  }

  lemma CloseOk(t: FTable, c: ICache, T: seq<Dinode>, f: nat)
    requires TableOk(t, c, T) && f < NFILE && t.ref[f] == 1 && |c.din| == NINODE
    ensures t.ip[f] < NINODE && c.ref[t.ip[f]] > 0 && TableOk(Closed(t, f), Dropped(c, t.ip[f]), T)
  {
    HeldAt(t, c, T, f);
    var t', c' := Closed(t, f), Dropped(c, t.ip[f]);
    assert Holds(t') == Holds(t)[f := NINODE];
    forall g | 0 <= g < NFILE && t'.ref[g] == 1 ensures t'.ip[g] < NINODE && c'.valid[t'.ip[g]] {
      if t.ip[g] == t.ip[f] { assert Holds(t')[g] == t.ip[f] && multiset(Holds(t'))[t.ip[f]] > 0; }
    }
  }

  /** The fields that the end of sys_open sets. */
  function WithFile(t: FTable, f: nat, q: nat, omode: nat): FTable
    requires Shape(t) && f < NFILE
  {
    FTable(t.typ[f := FD_INODE], t.ref[f := 1], t.readable[f := !WriteOnly(omode)], t.writable[f := Writes(omode)],
      t.ip[f := q], t.off[f := 0])
  }

  /** Inodes that slots of `c0` refer to have not become directories. */
  ghost predicate StillFiles(c0: ICache, T0: seq<Dinode>, T: seq<Dinode>) {
    && |c0.inum| == |c0.ref| == NINODE && |T| == |T0|
    && forall p {:trigger c0.ref[p]} :: 0 <= p < NINODE && c0.ref[p] > 0 ==>
         c0.inum[p] < |T0| && (T[c0.inum[p]].typ == T_DIR ==> T0[c0.inum[p]].typ == T_DIR)
  }

  lemma OpenOk(t: FTable, c0: ICache, T0: seq<Dinode>, c: ICache, T: seq<Dinode>, f: nat, q: nat, omode: nat)
    requires TableOk(t, c0, T0) && Moved(c0, c) && StillFiles(c0, T0, T) && f < NFILE && t.ref[f] == 0
    requires q < NINODE && c.ref == c0.ref[q := c0.ref[q] + 1] && c.valid[q] && c.inum[q] < |T|
    requires Writes(omode) ==> T[c.inum[q]].typ != T_DIR
    ensures TableOk(WithFile(t, f, q, omode), c, T)
  {
    var t' := WithFile(t, f, q, omode);
    assert Holds(t)[f] == NINODE && Holds(t') == Holds(t)[f := q];
    OldFiles(t, c0, T0, c, T);
    assert forall p :: 0 <= p < NINODE ==> multiset(Holds(t'))[p] == multiset(Holds(t))[p] + if p == q then 1 else 0;
  }

  lemma OldFiles(t: FTable, c0: ICache, T0: seq<Dinode>, c: ICache, T: seq<Dinode>)
    requires TableOk(t, c0, T0) && Moved(c0, c) && StillFiles(c0, T0, T)
    ensures forall f {:trigger t.ref[f]} :: 0 <= f < NFILE && t.ref[f] == 1 ==>
              c.valid[t.ip[f]] && c.inum[t.ip[f]] < |T| && (t.writable[f] ==> T[c.inum[t.ip[f]]].typ != T_DIR)
  {
    hide Holds;
    forall f | 0 <= f < NFILE && t.ref[f] == 1
      ensures c.valid[t.ip[f]] && c.inum[t.ip[f]] < |T| && (t.writable[f] ==> T[c.inum[t.ip[f]]].typ != T_DIR)
    {
      HeldAt(t, c0, T0, f);
      assert c0.ref[t.ip[f]] <= c.ref[t.ip[f]];
    }
  }

  lemma KeepOk(t: FTable, c0: ICache, T0: seq<Dinode>, c: ICache, T: seq<Dinode>)
    requires TableOk(t, c0, T0) && Moved(c0, c) && StillFiles(c0, T0, T) && c.ref == c0.ref
    ensures TableOk(t, c, T)
  {
    OldFiles(t, c0, T0, c, T);
  }

  lemma FdOpenOk(ofile: seq<nat>, t: FTable, holder: seq<nat>, k: nat, f: nat, q: nat, omode: nat)
    requires Shape(t) && FdsOk(ofile, t, holder) && k < |ofile| && ofile[k] == NFILE && f < NFILE && t.ref[f] == 0
    ensures FdsOk(ofile[k := f], WithFile(t, f, q, omode), holder[f := k])
  {
  }

  lemma FdCloseOk(ofile: seq<nat>, t: FTable, holder: seq<nat>, k: nat)
    requires Shape(t) && FdsOk(ofile, t, holder) && k < |ofile| && ofile[k] != NFILE
    ensures ofile[k] < NFILE && t.ref[ofile[k]] == 1
    ensures FdsOk(ofile[k := NFILE], Closed(t, ofile[k]), holder)
  {
  }

  /** The first free file structure, NFILE if there is none. */
  ghost predicate FirstFile(t: FTable, f: nat)
    requires Shape(t)
  {
    f <= NFILE && (f < NFILE ==> t.ref[f] == 0) && forall g :: 0 <= g < f ==> t.ref[g] != 0
  }

  /** The place of descriptor `fd` of process `s`. */
  function Fd(s: nat, fd: nat): (k: nat)
    ensures s < Proc.NPROC && fd < NOFILE ==> k < Proc.NPROC * NOFILE
  {
    NOFILE * s + fd
  }

  /** The first free descriptor of process `s` from 3 on, NOFILE if there is none. */
  ghost predicate FirstFd(ofile: seq<nat>, s: nat, fd: nat)
    requires s < Proc.NPROC && |ofile| == Proc.NPROC * NOFILE
  {
    && 3 <= fd <= NOFILE && (fd < NOFILE ==> ofile[Fd(s, fd)] == NFILE)
    && forall g :: 3 <= g < fd ==> ofile[Fd(s, g)] != NFILE
  }

  /** Descriptor `fd` of process `s`, its lowest free one from 3 on, is of a new open file: nobody else's,
      of inode `i`, at its start, to be read unless O_WRONLY is set and to be written if O_WRONLY or
      O_RDWR is. No other file or descriptor changes. */
  ghost predicate OpenedFd(t: FTable, o: seq<nat>, t': FTable, o': seq<nat>, c: ICache, s: nat, fd: int, i: nat,
      omode: nat) {
    && Shape(t) && Shape(t') && 3 <= fd < 16 && 16 * s + fd < |o| == |o'| && o[16 * s + fd] == 100
    && (forall g :: 16 * s + 3 <= g < 16 * s + fd ==> o[g] != 100)
    && var f := o'[16 * s + fd];
       && f < 100 && o' == o[16 * s + fd := f] && t.ref[f] == 0 && t'.ref[f] == 1 && t'.typ[f] == 1 && t'.off[f] == 0
       && t'.ip[f] < 50 && t'.ip[f] < |c.inum| && c.inum[t'.ip[f]] == i
       && (t'.readable[f] <==> omode % 2 == 0) && (t'.writable[f] <==> omode % 2 == 1 || omode / 2 % 2 == 1)
       && OtherFiles(t, t', f)
  }

  /** No open file but `f` changes. */
  predicate OtherFiles(t: FTable, t': FTable, f: nat)
    requires Shape(t) && Shape(t')
  {
    forall g {:trigger t'.ref[g]} :: 0 <= g < 100 && g != f ==>
      && t'.ref[g] == t.ref[g] && t'.typ[g] == t.typ[g] && t'.off[g] == t.off[g] && t'.ip[g] == t.ip[g]
      && t'.readable[g] == t.readable[g] && t'.writable[g] == t.writable[g]
  }

  lemma OpenedIs(t: FTable, o: seq<nat>, t': FTable, o': seq<nat>, c: ICache, s: nat, r: int, q: nat, i: nat,
      omode: nat)
    requires Attached(t, o, t', o', s, q, omode, r) && r != -1 && q < NINODE == |c.inum| && c.inum[q] == i
    ensures OpenedFd(t, o, t', o', c, s, r, i, omode)
  {
    Layout.BitAt(omode);
    forall g | 16 * s + 3 <= g < 16 * s + r ensures o[g] != 100 { assert g == Fd(s, g - 16 * s); }
  }

  /** Descriptor `fd` of process `s` is free and its file is not open any more; the slot of its inode has
      one reference less. No other file or descriptor changes. */
  ghost predicate ClosedFd(t: FTable, o: seq<nat>, c: ICache, t': FTable, o': seq<nat>, c': ICache, s: nat, fd: int) {
    && Shape(t) && Shape(t') && 0 <= fd < 16 && 16 * s + fd < |o| == |o'| && |c.ref| == 50
    && var f := o[16 * s + fd];
       && f < 100 && o' == o[16 * s + fd := 100] && t'.ref[f] == 0 && t'.typ[f] == 0 && OtherFiles(t, t', f)
       && t.ip[f] < 50 && c.ref[t.ip[f]] > 0 && c'.ref == c.ref[t.ip[f] := c.ref[t.ip[f]] - 1] && c'.inum == c.inum
  }

  lemma ClosedIs(t: FTable, o: seq<nat>, c: ICache, T: seq<Dinode>, s: nat, fd: nat)
    requires Shape(t) && fd < NOFILE && s < Proc.NPROC && |o| == Proc.NPROC * NOFILE && o[Fd(s, fd)] < NFILE
             && t.ref[o[Fd(s, fd)]] == 1 && TableOk(t, c, T)
    ensures var f := o[Fd(s, fd)];
            && t.ip[f] < NINODE && c.ref[t.ip[f]] > 0
            && (|c.din| == NINODE ==>
                  ClosedFd(t, o, c, Closed(t, f), o[Fd(s, fd) := NFILE], Dropped(c, t.ip[f]), s, fd))
  {
    HeldAt(t, c, T, o[Fd(s, fd)]);
  }

  /** What sys_open has done to the file system. */
  ghost predicate OpenEffect(v: Verdict, V: seq<Block>, T: seq<Dinode>, V': seq<Block>, T': seq<Dinode>, i: nat) {
    match v
    case Refused => V' == V && T' == T
    case Existing(j) => i == j && V' == V && T' == T
    case Fresh(d, key) => Created(V, T, V', T', d, key, i)
  }

  lemma OpenedParts(v: Verdict, V: seq<Block>, T: seq<Dinode>, c: ICache, refs: seq<nat>,
    V': seq<Block>, T': seq<Dinode>, c': ICache, refs': seq<nat>, q: nat, i: nat)
    requires Opened(v, V, T, c, refs, V', T', c', refs', q, i)
    ensures OpenEffect(v, V, T, V', T', i) && (v.Refused? <==> q == NINODE)
    ensures if v.Refused? then SameRefs(c, refs, c', refs') else OneMore(c, refs, c', refs', q, i)
  {
    hide Created, SameRefs;
  }

  /** Opening turns no referenced inode into a directory. */
  lemma OpenFiles(v: Verdict, V: seq<Block>, T: seq<Dinode>, V': seq<Block>, T': seq<Dinode>, c: ICache, i: nat)
    requires OpenEffect(v, V, T, V', T', i) && Typed(c, T)
    ensures StillFiles(c, T, T')
  {
    forall p | 0 <= p < NINODE && c.ref[p] > 0
      ensures c.inum[p] < |T| && (T'[c.inum[p]].typ == T_DIR ==> T[c.inum[p]].typ == T_DIR)
    {
      assert T[c.inum[p]].typ != 0;
      if v.Fresh? && c.inum[p] != v.d && c.inum[p] != i { assert T'[c.inum[p]] == T[c.inum[p]]; }
    }
  }

  /** File `i` is spliced with `src` at `off`; nothing else changes. */
  ghost predicate FileWrote(V: seq<Block>, T: seq<Dinode>, V': seq<Block>, T': seq<Dinode>, i: nat, off: nat,
      src: seq<byte>) {
    && OnlyFile(V, T, V', T', i) && i < |T| && WfFile(T[i]) && WfFile(T'[i]) && off <= T[i].size
    && T'[i] == T[i].(addrs := T'[i].addrs, size := T'[i].size)
    && Content(V', T'[i]) == Splice(Content(V, T[i]), off, src)
  }

  lemma SpanSmall(off: nat, n: nat)
    requires n <= BSIZE
    ensures Span(off, n) <= 2
  {
  }

  /** writei of at most a block's worth to an open regular file: within one transaction's
      budget, and the invariants hold. */
  method WriteFile(fs: Fs, q: nat, src: seq<byte>, off: nat, ghost i: nat) returns (ok: bool, r: int)
    requires fs.Good() && fs.InOp() && fs.S() == {} && fs.At(q, i) && fs.T[i].typ != 0 && fs.T[i].typ != T_DIR
    requires |src| <= BSIZE && off < U32
    modifies fs`ic, fs`T, fs`owner, fs.log, fs.log.bc
    ensures fs.Up()
    ensures !ok ==> off + |src| > MAXBYTES || (NoFree(fs.sb, fs.V()) && old(fs.Short(Span(off, |src|) + 1)))
    ensures ok ==> fs.Good() && fs.InOp() && fs.ic == old(fs.ic).(din := old(fs.ic.din)[q := fs.T[i]])
    ensures ok ==> (r == -1 <==> off > old(fs.T)[i].size || off + |src| >= U32)
    ensures ok && r == -1 ==> fs.V() == old(fs.V()) && fs.T == old(fs.T)
    ensures ok && r != -1 ==>
            r == |src| && off + r <= MAXBYTES && FileWrote(old(fs.V()), old(fs.T), fs.V(), fs.T, i, off, src)
  {
    hide Fs.Up, Consistent, CacheOk, Refs, Typed, Dirs, Named, Wrote, Content, Span, Foot, OnlyFile, Nameless, Listing;
    ghost var V0, T0, c0 := fs.V(), fs.T, fs.ic;
    fs.OpenWf(q, i);
    FootCard(fs.sb, fs.S(), i, fs.T[i]);
    SpanSmall(off, |src|);
    ok, r := fs.Writei(q, src, off, i);
    if !ok { return; }
    if r == -1 { assert fs.ic == c0; return; }
    WroteContent(V0, T0, fs.V(), fs.T, i, off, src);
    Recount(c0, T0, fs.refs, q, i, fs.T[i]);
    TidyFile(V0, T0, fs.V(), fs.T, fs.names, i);
    assert Linked(fs.T) by { Relinked(V0, T0, fs.names, i, fs.T[i]); assert fs.T == T0[i := fs.T[i]]; }
  }

  class Files {
    const fs: Fs
    var ft: FTable
    var ofile: seq<nat>
    ghost var holder: seq<nat>      // the descriptor of each open file

    /** fileinit, and process slots without open files. */
    constructor (fs: Fs)
      requires fs.Good() && fs.Idle() && SuperIs(fs.sb, fs.super) && forall p :: 0 <= p < NINODE ==> fs.ic.ref[p] == 0
      ensures this.fs == fs && Valid() && Unopened()
    {
      hide Fs.Up, Consistent, Tidy, Refs, Typed;
      this.fs := fs;
      ft := FTable(Zeroes(NFILE), Zeroes(NFILE), seq(NFILE, _ => false), seq(NFILE, _ => false), Zeroes(NFILE),
                   Zeroes(NFILE));
      ofile, holder := seq(Proc.NPROC * NOFILE, _ => NFILE), Zeroes(NFILE);
      new;
      assert forall f :: 0 <= f < NFILE ==> Holds(ft)[f] == NINODE;
    }

    /** The state at every system call boundary. Only when a file is unlinked while it is open can
        a slot `ex` of the inode cache come to hold a freed inode. */
    ghost predicate Valid(ex: int := -1)
      reads this, fs, fs.log, fs.log.bc, fs.log.bc.disk
    {
      fs.Good(ex) && fs.Idle() && SuperIs(fs.sb, fs.super) && TableOk(ft, fs.ic, fs.T) && FdsOk(ofile, ft, holder)
    }

    /** No file is open. */
    ghost predicate Unopened()
      reads this
    {
      && Shape(ft) && (forall f :: 0 <= f < NFILE ==> ft.ref[f] == 0)
      && |ofile| == Proc.NPROC * NOFILE && (forall k :: 0 <= k < |ofile| ==> ofile[k] == NFILE)
    }

    /** The same, inside the transaction of a system call. */
    ghost predicate InCall()
      reads this, fs, fs.log, fs.log.bc, fs.log.bc.disk
    {
      fs.Good() && fs.InOp() && TableOk(ft, fs.ic, fs.T) && FdsOk(ofile, ft, holder)
    }

    /** filealloc; NFILE is the null result. */
    method Filealloc() returns (f: nat)
      requires Shape(ft)
      modifies this`ft
      ensures FirstFile(old(ft), f)
      ensures ft == if f < NFILE then old(ft).(ref := old(ft).ref[f := 1]) else old(ft)
    {
      f := 0;
      while f < NFILE
        invariant 0 <= f <= NFILE && ft == old(ft)
        invariant forall g :: 0 <= g < f ==> ft.ref[g] != 0
      {
        if ft.ref[f] == 0 {
          ft := ft.(ref := ft.ref[f := 1]);
          return;
        }
        f := f + 1;
      }
    }

    /** fdalloc, in process slot `s`; -1 when all descriptors are taken. */
    method Fdalloc(s: nat, f: nat) returns (r: int)
      requires s < Proc.NPROC && |ofile| == Proc.NPROC * NOFILE
      modifies this`ofile
      ensures r == -1 ==> ofile == old(ofile) && FirstFd(ofile, s, NOFILE)
      ensures r != -1 ==> 3 <= r < NOFILE && FirstFd(old(ofile), s, r) && ofile == old(ofile)[Fd(s, r) := f]
    {
      var fd := 3;
      while fd < NOFILE
        invariant 3 <= fd <= NOFILE && ofile == old(ofile)
        invariant forall g :: 3 <= g < fd ==> ofile[Fd(s, g)] != NFILE
      {
        if ofile[Fd(s, fd)] == NFILE {
          ofile := ofile[Fd(s, fd) := f];
          return fd;
        }
        fd := fd + 1;
      }
      return -1;
    }

    /** fileclose drops the inode that the last reference to a file holds. */
    ghost predicate LastClose(f: nat)
      reads this`ft
    {
      Shape(ft) && f < NFILE && ft.ref[f] == 1 && ft.typ[f] == FD_INODE
    }

    /** fileclose. Outside a transaction the freeing branch of iput ends in log_write's panic "log:
        outside of trans": `ok` is false. */
    method Fileclose(f: nat, ghost ex: int := -1) returns (ok: bool)
      requires Shape(ft) && f < NFILE && ft.ref[f] > 0
      requires LastClose(f) ==> fs.Good(ex) && ft.ip[f] < NINODE && fs.ic.ref[ft.ip[f]] > 0
      requires LastClose(f) && fs.Frees(ft.ip[f]) ==> fs.log.outstanding == 0
      modifies this`ft, fs`ic, fs`refs
      ensures ok <==> !(old(LastClose(f)) && old(fs.Frees(ft.ip[f])))
      ensures ok ==> ft == Closed(old(ft), f)
      ensures ok ==> if old(LastClose(f)) then fs.Good(ex) && fs.ic == Dropped(old(fs.ic), ft.ip[f])
                     else fs.ic == old(fs.ic) && fs.refs == old(fs.refs)
    {
      hide Fs.Up, Consistent, CacheOk, Refs, Typed, Tidy;
      ghost var t := ft;
      ft := ft.(ref := ft.ref[f := ft.ref[f] - 1]);
      if ft.ref[f] > 0 { return true; }
      if ft.typ[f] == FD_INODE {
        fs.CacheLengths(ex);
        var p := ft.ip[f];
        if fs.log.outstanding == 0 && fs.ic.ref[p] == 1 && fs.ic.valid[p] && fs.ic.din[p].nlink == 0 { return false; }
        fs.Iput(p, fs.ic.inum[p], ex);
      }
      ft := ft.(typ := ft.typ[f := FD_NONE]);
      assert ft == Closed(t, f);
      return true;
    }

    /** sys_close. Its iput runs outside any transaction: it panics exactly for the last open file of
        an inode whose last link is gone, which sys_unlink of an open file leaves behind. */
    method SysClose(s: nat, fd: int, ghost w: int := -1) returns (ok: bool, r: int)
      requires Valid(w) && s < Proc.NPROC
      modifies this`ft, this`ofile, fs`ic, fs`refs
      ensures ok <==> !old(Doomed(s, fd))
      ensures old(Valid()) ==> ok && Valid()
      ensures ok ==> Valid(w) && (r == 0 || r == -1)
      ensures ok ==> (r == 0 <==> 0 <= fd < NOFILE && old(ofile)[Fd(s, fd)] != NFILE)
      ensures ok && r == -1 ==> ft == old(ft) && ofile == old(ofile) && fs.ic == old(fs.ic)
      ensures ok && r == 0 ==> ofile == old(ofile)[Fd(s, fd) := NFILE] && ft == Closed(old(ft), old(ofile)[Fd(s, fd)])
      ensures ok && r == 0 ==> ClosedFd(old(ft), old(ofile), old(fs.ic), ft, ofile, fs.ic, s, fd)
    {
      hide Fs.Up, Consistent, CacheOk, Refs, Typed, Tidy, TableOk, FdsOk, SuperIs, Holds, Dropped;
      CallShape();
      if fd < 0 || fd >= NOFILE || ofile[Fd(s, fd)] == NFILE { return true, -1; }
      var f := ofile[Fd(s, fd)];
      FdCloseOk(ofile, ft, holder, Fd(s, fd));
      HeldAt(ft, fs.ic, fs.T, f);
      fs.FreesIs(ft.ip[f], w);
      fs.CacheLengths(w);
      ghost var ex := if Valid() then -1 else w;
      if Valid() { fs.KeepsGood(ft.ip[f]); }
      CloseOk(ft, fs.ic, fs.T, f);
      ofile := ofile[Fd(s, fd) := NFILE];
      fs.IdleOutside();
      ok := Fileclose(f, ex);
      if ok && ex == -1 { fs.GoodAny(w); }
      if ok { ClosedIs(old(ft), old(ofile), old(fs.ic), fs.T, s, fd); }
      return ok, 0;
    }

    /** The descriptor is of an open file whose inode has no link left, and no other file has it open. */
    ghost predicate Doomed(s: nat, fd: int)
      requires s < Proc.NPROC && |ofile| == Proc.NPROC * NOFILE
      reads this, fs
    {
      0 <= fd < NOFILE && ofile[Fd(s, fd)] < NFILE && Shape(ft) &&
      var p := ft.ip[ofile[Fd(s, fd)]];
      p < |fs.ic.ref| && p < |fs.ic.inum| && fs.ic.ref[p] == 1 && fs.ic.inum[p] < |fs.T|
      && fs.T[fs.ic.inum[p]].nlink == 0
    }

    lemma CallShape()
      requires TableOk(ft, fs.ic, fs.T) && FdsOk(ofile, ft, holder)
      ensures Shape(ft) && |ofile| == Proc.NPROC * NOFILE && |fs.ic.ref| == NINODE
    {
      hide Holds;
    }

    /** The end of sys_open for the inode of slot `q`: a file structure, a descriptor, their
        fields; or all of it undone. */
    method Attach(s: nat, q: nat, omode: nat, ghost i: nat, ghost c0: ICache, ghost refs0: seq<nat>,
        ghost T0: seq<Dinode>) returns (r: int)
      requires fs.Good() && fs.InOp() && s < Proc.NPROC && fs.At(q, i) && OneMore(c0, refs0, fs.ic, fs.refs, q, i)
               && |refs0| == |fs.T|
      requires TableOk(ft, c0, T0) && FdsOk(ofile, ft, holder) && StillFiles(c0, T0, fs.T)
      requires Writes(omode) ==> fs.T[i].typ != T_DIR
      modifies this`ft, this`ofile, this`holder, fs`ic, fs`refs
      ensures InCall()
      ensures Attached(old(ft), old(ofile), ft, ofile, s, q, omode, r)
      ensures if r == -1 then SameRefs(c0, refs0, fs.ic, fs.refs) else OneMore(c0, refs0, fs.ic, fs.refs, q, i)
    {
      hide Fs.Up, Consistent, CacheOk, Refs, Typed, Tidy, TableOk, FdsOk, SuperIs, Holds, OneMore, SameRefs, StillFiles;
      ghost var t0, o0 := ft, ofile;
      TableShape(ft, c0, T0);
      FdsShape(ofile, ft, holder);
      var f := Filealloc();
      if f == NFILE {
        fs.PutBack(q, i, c0, refs0);
        SameKeep(t0, c0, refs0, T0, fs.ic, fs.refs, fs.T);
        return -1;
      }
      var fd := Fdalloc(s, f);
      if fd < 0 {
        FreeFileIs(t0, c0, T0, f);
        var closed := Fileclose(f);
        assert ft == t0;
        fs.PutBack(q, i, c0, refs0);
        SameKeep(t0, c0, refs0, T0, fs.ic, fs.refs, fs.T);
        return -1;
      }
      ft := ft.(typ := ft.typ[f := FD_INODE], ip := ft.ip[f := q], off := ft.off[f := 0],
                readable := ft.readable[f := !WriteOnly(omode)],
                writable := ft.writable[f := WriteOnly(omode) || ReadWrite(omode)]);
      assert ft == WithFile(t0, f, q, omode);
      FdOpenOk(o0, t0, holder, Fd(s, fd), f, q, omode);
      holder := holder[f := Fd(s, fd)];
      OneOpen(t0, c0, refs0, T0, fs.ic, fs.refs, fs.T, f, q, i, omode);
      return fd;
    }

    /** sys_open. Whatever path it takes, its transaction is closed again and every reference
        it took is either in the new file or given back. `ok` is false for a panic, which
        leaves the disk alone and comes only of a want that `OpenStuck` names. */
    method SysOpen(s: nat, path: Option<seq<byte>>, omode: nat, name0: Name)
      returns (ok: bool, r: int, ghost i: nat, ghost q: nat)
      requires Valid() && s < Proc.NPROC && (path.Some? ==> IsPath(path.value))
      modifies this`ft, this`ofile, this`holder, fs`ic, fs`T, fs`owner, fs`refs, fs`names, fs.log, fs.log.bc,
               fs.log.bc.disk
      ensures !ok ==> fs.log.Now() == old(fs.log.Now())
      ensures !ok ==> OpenStuck(Decide(old(fs.V()), old(fs.T), path, omode), fs.sb, old(fs.V()), old(fs.T), old(fs.ic))
      ensures ok ==> |FreeBlocks(fs.sb, fs.V())| + 2 >= |FreeBlocks(fs.sb, old(fs.V()))|
      ensures ok ==> Valid() && OpenEffect(Decide(old(fs.V()), old(fs.T), path, omode), old(fs.V()), old(fs.T), fs.V(),
                                           fs.T, i)
      ensures ok ==> if Decide(old(fs.V()), old(fs.T), path, omode).Refused? then r == -1 && ft == old(ft)
                                                                                  && ofile == old(ofile)
                     else Attached(old(ft), old(ofile), ft, ofile, s, q, omode, r)
      ensures ok ==> if r == -1 then SameRefs(old(fs.ic), old(fs.refs), fs.ic, fs.refs)
                     else OneMore(old(fs.ic), old(fs.refs), fs.ic, fs.refs, q, i)
      ensures ok && r != -1 ==> OpenedFd(old(ft), old(ofile), ft, ofile, fs.ic, s, r, i, omode)
      ensures ok ==> Trail(fs.log.bc.disk.hist, Since(old(fs.log.bc.disk.hist)), Geo(fs.sb), [old(fs.V()), fs.V()])
    {
      hide Fs.Up, Consistent, CacheOk, Refs, Typed, Tidy, TableOk, FdsOk, SuperIs, OneMore, SameRefs, StillFiles,
           Resolve, Opened, Created, Attached, Trail, Creates, OpenedFd, OpenStuck, FreeBlocks,
           NoFree;
      ghost var V0, T0, c0, refs0 := fs.V(), fs.T, fs.ic, fs.refs;
      ghost var v := Decide(V0, T0, path, omode);
      i, q := 0, 0;
      fs.ShortIs(2);
      fs.IdleDurable();
      CacheShape(fs.ic, fs.T);
      fs.Begin();
      if path.None? {
        SameSelf(c0, refs0);
        fs.End();
        return true, -1, 0, 0;
      }
      var p;
      if Creates(omode) {
        ok, p, i := OpenCreate(fs, path.value, omode, name0);
      } else {
        ok, p, i := OpenOnly(fs, path.value, omode, name0);
      }
      q := p;
      if !ok { return false, -1, 0, 0; }
      fs.ShortIs(2);
      OpenedParts(v, V0, T0, c0, refs0, fs.V(), fs.T, fs.ic, fs.refs, p, i);
      OpenFiles(v, V0, T0, fs.V(), fs.T, c0, i);
      if p == NINODE {
        SameKeep(ft, c0, refs0, T0, fs.ic, fs.refs, fs.T);
        fs.End();
        return true, -1, i, q;
      }
      DecideWrites(V0, T0, path, omode, fs.V(), fs.T, i);
      ghost var t0, o0 := ft, ofile;
      r := Attach(s, p, omode, i, c0, refs0, T0);
      if r != -1 {
        OneAt(c0, refs0, fs.ic, fs.refs, p, i);
        OpenedIs(t0, o0, ft, ofile, fs.ic, s, r, p, i, omode);
      }
      fs.End();
    }

    /** sys_unlink. A panic leaves the disk alone and comes only of the want of two inode slots or
        of two blocks. The state between calls is kept if and only if the file keeps a link or
        is not open; if not, its slot `w` is left with a freed inode. */
    method SysUnlink(path: Option<seq<byte>>, name0: Name) returns (ok: bool, r: int, ghost w: int)
      requires Valid() && (path.Some? ==> IsPath(path.value))
      modifies fs`ic, fs`T, fs`owner, fs`refs, fs`names, fs.log, fs.log.bc, fs.log.bc.disk
      ensures !ok ==> fs.log.Now() == old(fs.log.Now())
      ensures !ok ==> Tight(old(fs.ic)) || |FreeBlocks(fs.sb, old(fs.V()))| < 2
      ensures ok ==> Valid(w) && (Valid() <==> Spared(Aim(old(fs.V()), old(fs.T), path), old(fs.T), old(fs.refs)))
      ensures ok ==> SameRefs(old(fs.ic), old(fs.refs), fs.ic, fs.refs)
      ensures ok ==> Removed(Aim(old(fs.V()), old(fs.T), path), old(fs.V()), old(fs.T), fs.V(), fs.T, r)
      ensures ok ==> Trail(fs.log.bc.disk.hist, Since(old(fs.log.bc.disk.hist)), Geo(fs.sb), [old(fs.V()), fs.V()])
    {
      hide Fs.Up, Consistent, CacheOk, Refs, Typed, Tidy, TableOk, FdsOk, SuperIs, SameRefs, StillFiles, Unlinked,
           UnlinkTarget, Trail;
      ghost var V0, T0, c0, refs0, t := fs.V(), fs.T, fs.ic, fs.refs, Aim(fs.V(), fs.T, path);
      fs.IdleDurable();
      CacheShape(fs.ic, fs.T);
      fs.Begin();
      if path.None? {
        SameSelf(c0, refs0);
        fs.End();
        return true, -1, -1;
      }
      ok, r, w := UnlinkPath(fs, path.value, name0);
      if !ok { return; }
      UnlinkFiles(t, V0, T0, fs.V(), fs.T, r, c0, refs0);
      SameKeep(ft, c0, refs0, T0, fs.ic, fs.refs, fs.T);
      fs.End(w);
    }

    /** filewrite of at most a block's worth, inside a transaction. */
    method Filewrite(f: nat, src: seq<byte>, ghost i: nat) returns (ok: bool, r: int)
      requires fs.Good() && fs.InOp() && fs.S() == {} && TableOk(ft, fs.ic, fs.T) && |src| <= BSIZE
      requires f < NFILE && ft.ref[f] == 1 && ft.ip[f] < NINODE && i == fs.ic.inum[ft.ip[f]]
      modifies this`ft, fs`ic, fs`T, fs`owner, fs.log, fs.log.bc
      ensures fs.Up()
      ensures !ok ==> old(ft.off)[f] + |src| > MAXBYTES
                      || (NoFree(fs.sb, fs.V()) && old(fs.Short(Span(ft.off[f], |src|) + 1)))
      ensures ok ==> fs.Good() && fs.InOp() && TableOk(ft, fs.ic, fs.T) && fs.ic.inum == old(fs.ic.inum)
                     && fs.ic.ref == old(fs.ic.ref)
      ensures ok ==> Shape(ft) && Written(old(fs.V()), old(fs.T), fs.V(), fs.T, i, old(ft), ft, f, src, r)
    {
      hide Fs.Up, Consistent, CacheOk, Refs, Typed, Tidy, TableOk, StillFiles, FileWrote;
      ghost var V0, T0, c0, t0 := fs.V(), fs.T, fs.ic, ft;
      TableShape(ft, fs.ic, fs.T);
      HeldAt(ft, fs.ic, fs.T, f);
      CacheShape(fs.ic, fs.T);
      if !ft.writable[f] { return true, -1; }
      assert ft.typ[f] == FD_INODE;      // panic("filewrite") is not reached
      var q := ft.ip[f];
      fs.Ilock(q, i);
      assert fs.ic == c0.(din := c0.din[q := fs.T[i]]);
      fs.TypAt(q, i);
      ok, r := WriteFile(fs, q, src, ft.off[f], i);
      if !ok { return; }
      assert fs.ic == c0.(din := c0.din[q := fs.T[i]]);
      TypesKept(V0, T0, fs.V(), fs.T, i, t0, c0, fs.ic, q, r, ft.off[f], src);
      if r > 0 {
        MoveOff(ft, fs.ic, fs.T, f, ft.off[f] + r);
        ft := ft.(off := ft.off[f := ft.off[f] + r]);
      }
    }

    /** fileread: the file's next bytes; the offset moves past them. */
    method Fileread(f: nat, n: nat, ghost i: nat) returns (r: int, dst: seq<byte>)
      requires Valid() && f < NFILE && ft.ref[f] == 1 && ft.ip[f] < NINODE && i == fs.ic.inum[ft.ip[f]] && n < U32
      modifies this`ft, fs`ic, fs`T, fs`owner, fs.log, fs.log.bc
      ensures Valid() && fs.V() == old(fs.V()) && fs.T == old(fs.T) && fs.ic == old(fs.ic) && fs.refs == old(fs.refs)
      ensures i < |fs.T| && WfFile(fs.T[i]) && ReadOf(Content(fs.V(), fs.T[i]), old(ft), ft, f, n, r, dst)
    {
      hide Fs.Up, Consistent, CacheOk, Refs, Typed, Tidy, TableOk, FdsOk, SuperIs, StillFiles, Content;
      ghost var c0, t0 := fs.ic, ft;
      TableShape(ft, fs.ic, fs.T);
      HeldAt(ft, fs.ic, fs.T, f);
      CacheShape(fs.ic, fs.T);
      var q := ft.ip[f];
      fs.LoadedAt(q, i);
      fs.Ilock(q, i);
      fs.OpenWf(q, i);
      assert fs.ic == c0;
      if !ft.readable[f] { return -1, []; }
      assert ft.typ[f] == FD_INODE;      // panic("fileread") is not reached
      TableWeaken(fs.sb, fs.V(), fs.T, fs.owner, i);
      r, dst := fs.Readi(q, ft.off[f], n, i);
      fs.NoOpsIdle();
      if r > 0 {
        MoveOff(ft, fs.ic, fs.T, f, ft.off[f] + r);
        MoveFd(ofile, ft, holder, f, ft.off[f] + r);
        ft := ft.(off := ft.off[f := ft.off[f] + r]);
      } else if r == 0 {
        assert ft == ft.(off := ft.off[f := ft.off[f] + r]);
      }
    }
  }

  /** The entry that sys_unlink is after, if argstr has not failed. */
  ghost function Aim(V: seq<Block>, T: seq<Dinode>, path: Option<seq<byte>>): Target {
    if path.None? then NoTarget else UnlinkTarget(V, T, path.value)
  }

  /** Unlinking turns no referenced inode into a directory. */
  lemma UnlinkFiles(t: Target, V: seq<Block>, T: seq<Dinode>, V': seq<Block>, T': seq<Dinode>, r: int, c: ICache,
      refs: seq<nat>)
    requires Removed(t, V, T, V', T', r) && Typed(c, T) && Refs(c, refs)
    ensures StillFiles(c, T, T')
  {
    hide Listing;
    forall p | 0 <= p < NINODE && c.ref[p] > 0
      ensures c.inum[p] < |T| && (T'[c.inum[p]].typ == T_DIR ==> T[c.inum[p]].typ == T_DIR)
    {
      if t.Target? && c.inum[p] != t.d && c.inum[p] != t.j { assert T'[c.inum[p]] == T[c.inum[p]]; }
    }
  }

  /** `argstr` has failed, or sys_open resolves the path it copied in. */
  ghost function Decide(V: seq<Block>, T: seq<Dinode>, path: Option<seq<byte>>, omode: nat): Verdict {
    if path.None? then Refused else Resolve(V, T, path.value, omode)
  }

  lemma DecideWrites(V: seq<Block>, T: seq<Dinode>, path: Option<seq<byte>>, omode: nat, V': seq<Block>,
      T': seq<Dinode>, i: nat)
    requires OpenEffect(Decide(V, T, path, omode), V, T, V', T', i) && !Decide(V, T, path, omode).Refused? && i < |T'|
    ensures Writes(omode) ==> T'[i].typ != T_DIR
  {
    hide NameI, NameIParent, Next, Comps, Listing;
    assert omode == 0 ==> !Writes(omode);
  }

  /** filewrite's effect on file `i` and on the offset, by its result. */
  ghost predicate Written(V: seq<Block>, T: seq<Dinode>, V': seq<Block>, T': seq<Dinode>, i: nat, t: FTable, t': FTable,
      f: nat, src: seq<byte>, r: int) {
    && Shape(t) && f < NFILE && i < |T|
    && (r == -1 <==> !t.writable[f] || t.off[f] > T[i].size || t.off[f] + |src| >= U32)
    && (r == -1 ==> V' == V && T' == T && t' == t)
    && (r != -1 ==> r == |src| && FileWrote(V, T, V', T', i, t.off[f], src)
                    && t' == t.(off := t.off[f := t.off[f] + r]))
  }

  /** fileread's result and new offset, for a file with contents `c`. */
  ghost predicate ReadOf(c: seq<byte>, t: FTable, t': FTable, f: nat, n: nat, r: int, dst: seq<byte>) {
    && Shape(t) && f < NFILE
    && (r == -1 <==> !t.readable[f] || t.off[f] > |c| || t.off[f] + n >= U32)
    && (r == -1 ==> t' == t)
    && (r != -1 ==> && 0 <= r && t.off[f] + r <= |c| && (r == n || t.off[f] + r == |c|) && r <= n
                    && dst == c[t.off[f]..t.off[f] + r] && t' == t.(off := t.off[f := t.off[f] + r]))
  }

  lemma MoveFd(ofile: seq<nat>, t: FTable, holder: seq<nat>, f: nat, off: nat)
    requires Shape(t) && FdsOk(ofile, t, holder) && f < NFILE
    ensures FdsOk(ofile, t.(off := t.off[f := off]), holder)
  {
  }

  lemma MoveOff(t: FTable, c: ICache, T: seq<Dinode>, f: nat, off: nat)
    requires TableOk(t, c, T) && f < NFILE && off < U32
    ensures TableOk(t.(off := t.off[f := off]), c, T)
  {
    assert Holds(t.(off := t.off[f := off])) == Holds(t);
  }

  lemma TypesKept(V: seq<Block>, T: seq<Dinode>, V': seq<Block>, T': seq<Dinode>, i: nat, t: FTable, c: ICache,
      c': ICache, q: nat, r: int, off: nat, src: seq<byte>)
    requires TableOk(t, c, T) && Typed(c, T) && |c.din| == NINODE && q < NINODE && i < |T'|
             && c' == c.(din := c.din[q := T'[i]])
    requires r == -1 ==> T' == T
    requires r != -1 ==> FileWrote(V, T, V', T', i, off, src)
    ensures TableOk(t, c', T')
  {
    hide TableOk, Splice, WfFile, Content;
    assert StillFiles(c, T, T') by {
      forall p | 0 <= p < NINODE && c.ref[p] > 0 ensures c.inum[p] < |T| && T'[c.inum[p]].typ == T[c.inum[p]].typ {
        if r != -1 && c.inum[p] != i { assert T'[c.inum[p]] == T[c.inum[p]]; }
      }
    }
    KeepOk(t, c, T, c', T');
  }

  lemma TableShape(t: FTable, c: ICache, T: seq<Dinode>)
    requires TableOk(t, c, T)
    ensures Shape(t)
  {
    hide Holds;
  }

  lemma FdsShape(ofile: seq<nat>, t: FTable, holder: seq<nat>)
    requires FdsOk(ofile, t, holder)
    ensures |ofile| == Proc.NPROC * NOFILE && |holder| == NFILE
  {
  }

  lemma FreeFileIs(t: FTable, c: ICache, T: seq<Dinode>, f: nat)
    requires TableOk(t, c, T) && f < NFILE && t.ref[f] == 0
    ensures t.typ[f] == FD_NONE && Closed(t.(ref := t.ref[f := 1]), f) == t
  {
    hide Holds;
  }

  lemma SameKeep(t: FTable, c0: ICache, refs0: seq<nat>, T0: seq<Dinode>, c: ICache, refs: seq<nat>, T: seq<Dinode>)
    requires TableOk(t, c0, T0) && SameRefs(c0, refs0, c, refs) && StillFiles(c0, T0, T)
    ensures TableOk(t, c, T)
  {
    hide TableOk, StillFiles;
    KeepOk(t, c0, T0, c, T);
  }

  lemma OneOpen(t: FTable, c0: ICache, refs0: seq<nat>, T0: seq<Dinode>, c: ICache, refs: seq<nat>, T: seq<Dinode>,
      f: nat, q: nat, i: nat, omode: nat)
    requires TableOk(t, c0, T0) && OneMore(c0, refs0, c, refs, q, i) && StillFiles(c0, T0, T) && Open(c, q) && i < |T|
    requires f < NFILE && t.ref[f] == 0 && (Writes(omode) ==> T[i].typ != T_DIR)
    ensures TableOk(WithFile(t, f, q, omode), c, T)
  {
    hide TableOk, StillFiles, Holds;
    TableShape(t, c0, T0);
    OpenOk(t, c0, T0, c, T, f, q, omode);
  }

  /** The file table and descriptors after the end of sys_open with result `r`. */
  ghost predicate Attached(t: FTable, o: seq<nat>, t': FTable, o': seq<nat>, s: nat, q: nat, omode: nat, r: int) {
    && Shape(t) && |o| == Proc.NPROC * NOFILE && s < Proc.NPROC
    && exists f :: FirstFile(t, f) &&
         if f == NFILE then r == -1 && t' == t && o' == o
         else exists fd :: FirstFd(o, s, fd) &&
                if fd == NOFILE then r == -1 && t' == t && o' == o
                else r == fd && t' == WithFile(t, f, q, omode) && o' == o[Fd(s, fd) := f]
  }
}
