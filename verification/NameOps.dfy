/** The name-space half of sys_open and sys_unlink in kernel/sysfile.c: what happens to
    directories and inodes between begin_op and end_op. */
module NameOps {
  import opened Bytes
  import opened LogSpec
  import opened FsSpec
  import opened FsState
  import opened Dir
  import opened Fs

  /** A new empty file `j`, first of the free inodes, is linked as `key` into directory `d`. */
  ghost predicate Created(V: seq<Block>, T: seq<Dinode>, V': seq<Block>, T': seq<Dinode>, d: nat, key: seq<byte>,
      j: nat) {
    && |T'| == |T| && d < |T| && 1 <= j < |T| && d != j
    && T[j].typ == 0 && (forall m :: 1 <= m < j ==> T[m].typ != 0) && T'[j] == Blank(T_FILE).(nlink := 1)
    && IsDir(T[d]) && IsDir(T'[d]) && T'[d] == T[d].(addrs := T'[d].addrs, size := T'[d].size)
    && key !in Listing(V, T, d) && Listing(V', T', d) == Listing(V, T, d)[key := j]
    && Entered(Content(V, T[d]), Content(V', T'[d]), key, j)
    && forall m {:trigger T'[m]} :: 0 <= m < |T| && m != d && m != j ==>
         T'[m] == T[m] && (WfFile(T[m]) ==> Content(V', T'[m]) == Content(V, T[m]))
  }

  lemma CreatedIs(V: seq<Block>, T: seq<Dinode>, V1: seq<Block>, T1: seq<Dinode>, V2: seq<Block>, T2: seq<Dinode>,
      d: nat, key: seq<byte>, j: nat)
    requires d < |T| && 1 <= j < |T| && d != j && IsDir(T[d]) && key !in Listing(V, T, d)
    requires T[j].typ == 0 && (forall m :: 1 <= m < j ==> T[m].typ != 0) && |T1| == |T|
    requires T1[j] == Blank(T_FILE).(nlink := 1) && OnlyFile(V, T, V1, T1, j) && Listing(V1, T1, d) == Listing(V, T, d)
    requires Enlisted(V1, T1, V2, T2, d, key, j)
    ensures Created(V, T, V2, T2, d, key, j)
  {
    hide Content, Listing, Entered;
    assert T1[d] == T[d];
    assert T2[j] == T1[j];
    forall m | 0 <= m < |T| && m != d && m != j
      ensures T2[m] == T[m] && (WfFile(T[m]) ==> Content(V2, T2[m]) == Content(V, T[m]))
    {
      assert T2[m] == T1[m] && T1[m] == T[m];
    }
  }

  /** `ilock(ip); ip->nlink = 1; iupdate(ip)` for the inode `j` that ialloc has just claimed. */
  method FirstLink(fs: Fs, q: nat, ghost j: nat, ghost V0: seq<Block>, ghost T0: seq<Dinode>)
    requires fs.Ready(-1) && fs.Counted() && fs.InOp() && q < NINODE && fs.ic.ref[q] > 0 && fs.ic.inum[q] == j
    requires Claim(V0, T0, fs.V(), fs.T, fs.names, j, T_FILE) && IBlock(fs.sb, j) in fs.S()
    modifies fs`ic, fs`T, fs.log, fs.log.bc
    ensures fs.Good() && fs.InOp() && fs.S() == old(fs.S()) && fs.At(q, j)
            && SameRefs(old(fs.ic), fs.refs, fs.ic, fs.refs)
    ensures fs.T == T0[j := Blank(T_FILE).(nlink := 1)] && OnlyFile(V0, T0, fs.V(), fs.T, j)
    ensures Nameless(fs.V(), fs.T, j) && forall i :: i != j ==> Listing(fs.V(), fs.T, i) == Listing(V0, T0, i)
  {
    hide Fs.Up, Consistent, CacheOk, Refs, Typed, Dirs, Named, SameFiles, OnlyFile, SameRefs, Listing, Nameless, IBlock;
    ghost var c, V1, T1 := fs.ic, fs.V(), fs.T;
    CacheShape(fs.ic, fs.T);
    fs.Ilock(q, j);
    fs.OpenWf(q, j);
    ghost var c1 := fs.ic;
    fs.SetMeta(q, fs.ic.din[q].(nlink := 1), j);
    SameOnly(V1, T1, fs.V(), fs.T, j);
    OnlyTrans(V0, T0, V1, T1, fs.V(), fs.T, j);
    Recount(c1, T1, fs.refs, q, j, fs.T[j]);
    assert fs.ic == c.(valid := c.valid[q := true], din := c.din[q := fs.T[j]]);
    SameIlock(c, fs.refs, q, fs.T[j]);
    assert Linked(fs.T);
    TidyRetype(V0, T0, fs.V(), fs.T, fs.names, j);
  }

  /** No inode is free. */
  ghost predicate NoInode(T: seq<Dinode>) {
    forall m :: 1 <= m < |T| ==> T[m].typ != 0
  }

  /** The branch of sys_open that makes a new file. Slot `dp` holds the directory `d`; on
      return slot `q` holds the new file `j` instead. */
  method NewFile(fs: Fs, dp: nat, name: Name, ghost d: nat, ghost c0: ICache, ghost refs0: seq<nat>)
    returns (ok: bool, q: nat, ghost j: nat)
    requires fs.Good() && fs.InOp() && fs.S() == {} && OneMore(c0, refs0, fs.ic, fs.refs, dp, d) && |refs0| == |fs.T|
    requires fs.At(dp, d) && IsDir(fs.T[d]) && Key(name) !in Listing(fs.V(), fs.T, d)
    modifies fs`ic, fs`T, fs`owner, fs`refs, fs`names, fs.log, fs.log.bc
    ensures fs.Up()
    ensures !ok ==> || (Busy(fs.ic) && Tight(c0)) || NoInode(old(fs.T))
                    || old(DirFull(fs.V(), fs.T, d)) || (NoFree(fs.sb, fs.V()) && old(fs.Short(2)))
    ensures ok ==> && fs.Good() && fs.InOp() && OneMore(c0, refs0, fs.ic, fs.refs, q, j) && fs.At(q, j)
                   && Created(old(fs.V()), old(fs.T), fs.V(), fs.T, d, Key(name), j)
                   && |fs.owner| <= |old(fs.owner)| + 2
  {
    hide Fs.Up, Consistent, CacheOk, Refs, Typed, Tidy, OnlyFile, SameRefs, Listing, Nameless, IBlock, OneMore, TwoMore,
         Got, Claim, Created, Enlisted, DirFull;
    ghost var V0, T0, c1, refs1 := fs.V(), fs.T, fs.ic, fs.refs;
    ok, q, j := fs.Ialloc(T_FILE);
    if !ok {
      if Busy(fs.ic) { TightOne(c0, refs0, c1, refs1, dp, d); }
      return;
    }
    ClaimAt(V0, T0, fs.V(), fs.T, fs.names, j, T_FILE);
    TwoGot(c0, refs0, c1, refs1, dp, d, fs.ic, fs.refs, q, j);
    TwoAt(c0, refs0, fs.ic, fs.refs, dp, d, q, j);
    ghost var c2, refs2 := fs.ic, fs.refs;
    FirstLink(fs, q, j, V0, T0);
    TwoSame(c0, refs0, c2, refs2, dp, d, q, j, fs.ic, fs.refs);
    ghost var V1, T1, c3 := fs.V(), fs.T, fs.ic;
    OnlyAt(V0, T0, V1, T1, j, d);
    OpenAfterGot(c1, refs1, c2, refs2, q, j, c3, fs.refs, T1, dp, d);
    FootCard(fs.sb, fs.S(), d, T1[d]);
    StillFull(V0, T0, V1, T1, j, d);
    ok := EnterFile(fs, dp, name, d, q, j, c0, refs0);
    if !ok { return; }
    CreatedIs(V0, T0, V1, T1, fs.V(), fs.T, d, Key(name), j);
  }

  /** `dirlink(dp, name, ip->inum); iunlockput(dp)` for the new file of slot `q`. */
  method EnterFile(fs: Fs, dp: nat, name: Name, ghost d: nat, q: nat, ghost j: nat, ghost c0: ICache,
      ghost refs0: seq<nat>)
    returns (ok: bool)
    requires fs.Good() && fs.InOp() && 0 !in fs.S() && TwoMore(c0, refs0, fs.ic, fs.refs, dp, d, q, j)
             && |refs0| == |fs.T|
    requires fs.At(dp, d) && fs.At(q, j) && IsDir(fs.T[d]) && fs.Cost(d) < LOGOP && d != j
    requires fs.T[j].typ != 0 && fs.T[j].typ != T_DIR && Nameless(fs.V(), fs.T, j)
             && Key(name) !in Listing(fs.V(), fs.T, d)
    modifies fs`ic, fs`T, fs`owner, fs`refs, fs`names, fs.log, fs.log.bc
    ensures fs.Up()
    ensures !ok ==> old(DirFull(fs.V(), fs.T, d)) || (NoFree(fs.sb, fs.V()) && old(fs.Short(2)))
    ensures ok ==> && fs.Good() && fs.InOp() && OneMore(c0, refs0, fs.ic, fs.refs, q, j) && fs.At(q, j)
                   && Enlisted(old(fs.V()), old(fs.T), fs.V(), fs.T, d, Key(name), j)
                   && |fs.owner| <= |old(fs.owner)| + 2
  {
    hide Fs.Up, Consistent, CacheOk, Refs, Typed, Tidy, OnlyFile, SameRefs, Listing, Nameless, IBlock, OneMore, TwoMore,
         DirFull, Enlisted;
    ghost var c, refs, V1, T1 := fs.ic, fs.refs, fs.V(), fs.T;
    TwoAt(c0, refs0, fs.ic, fs.refs, dp, d, q, j);
    var r;
    ok, r := fs.Dirlink(dp, name, fs.ic.inum[q], d);
    if !ok { return; }
    assert r == 0;                 // the branch for dirlink's -1 is not reached
    TwoSame(c0, refs0, c, refs, dp, d, q, j, fs.ic, fs.refs);
    TwoAt(c0, refs0, fs.ic, fs.refs, dp, d, q, j);
    ghost var c1, refs1 := fs.ic, fs.refs;
    fs.KeepsGood(dp);
    TwoDrop(c0, refs0, c1, refs1, dp, d, q, j);
    OneAt(c0, refs0, Dropped(c1, dp), refs1[d := refs1[d] - 1], q, j);
    fs.Iunlockput(dp, d);
    SameMoved(c, refs, c1, refs1);
    EnlistedOnly(V1, T1, fs.V(), fs.T, d, Key(name), j);
    OnlyAt(V1, T1, fs.V(), fs.T, d, j);
    StillOpen(c, c1, fs.T, q, j);
    OtherOpen(c1, dp, q, fs.T, d, j);
  }

  lemma OnlyAt(V: seq<Block>, T: seq<Dinode>, V': seq<Block>, T': seq<Dinode>, j: nat, d: nat)
    requires OnlyFile(V, T, V', T', j) && d != j && d < |T|
    ensures |T'| == |T| && T'[d] == T[d]
  {
    hide WfFile, Content;
  }

  lemma EnlistedOnly(V: seq<Block>, T: seq<Dinode>, V': seq<Block>, T': seq<Dinode>, d: nat, key: seq<byte>, j: nat)
    requires Enlisted(V, T, V', T', d, key, j)
    ensures OnlyFile(V, T, V', T', d) && |T'| == |T| && d < |T| && IsDir(T'[d])
  {
    hide Entered;
  }

  lemma StillFull(V: seq<Block>, T: seq<Dinode>, V': seq<Block>, T': seq<Dinode>, j: nat, d: nat)
    requires OnlyFile(V, T, V', T', j) && d != j
    ensures DirFull(V', T', d) ==> DirFull(V, T, d)
  {
    hide AllLive, Content;
    if d < |T| { assert T'[d] == T[d]; }
  }

  /** Dropping slot `p` leaves slot `q`, on another inode, open. */
  lemma OtherOpen(c: ICache, p: nat, q: nat, T: seq<Dinode>, i: nat, j: nat)
    requires CacheOk(c, T) && Open(c, p) && Open(c, q) && c.inum[p] == i && c.inum[q] == j && i != j
    ensures Open(Dropped(c, p), q) && Dropped(c, p).inum[q] == j && Dropped(c, p).din[q] == c.din[q]
  {
  }

  lemma ClaimAt(V: seq<Block>, T: seq<Dinode>, V': seq<Block>, T': seq<Dinode>, names: map<nat, Slot>, j: nat, typ: nat)
    requires Claim(V, T, V', T', names, j, typ)
    ensures 1 <= j < |T| && T[j].typ == 0 && (forall m :: 1 <= m < j ==> T[m].typ != 0)
  {
    hide OnlyFile, Nameless, Dirs, Named, Linked;
  }

  /** The flag bits of sys_open. */
  predicate Creates(omode: nat) { Bit(omode, 9) }             // O_CREATE
  predicate WriteOnly(omode: nat) { Bit(omode, 0) }           // O_WRONLY
  predicate ReadWrite(omode: nat) { Bit(omode, 1) }           // O_RDWR
  predicate Writes(omode: nat) { WriteOnly(omode) || ReadWrite(omode) }

  datatype Verdict = Refused | Existing(i: nat) | Fresh(d: nat, key: seq<byte>)

  /** What sys_open makes of a path: refuse it, open an inode, or make a file in a directory. */
  ghost function Resolve(V: seq<Block>, T: seq<Dinode>, path: seq<byte>, omode: nat): Verdict {
    if Creates(omode) then
      var d := NameIParent(V, T, path);
      if d == 0 then Refused else
        var key := Comps(path)[|Comps(path)| - 1];
        var j := Next(V, T, d, key);
        if j == 0 then Fresh(d, key) else if j < |T| && T[j].typ == T_DIR && Writes(omode) then Refused else Existing(j)
    else
      var i := NameI(V, T, path);
      if i == 0 || (i < |T| && T[i].typ == T_DIR && omode != 0) then Refused else Existing(i)
  }

  /** What sys_open may panic for want of: two inode slots or, for a new file, an inode, room in
      the directory or two blocks. */
  ghost predicate OpenStuck(v: Verdict, sb: Superblock, V: seq<Block>, T: seq<Dinode>, c: ICache) {
    || Tight(c)
    || (v.Fresh? && (NoInode(T) || DirFull(V, T, v.d) || |FreeBlocks(sb, V)| < 2))
  }

  /** Slot `q` has been opened on inode `i` as the verdict says; NINODE when it is refused. */
  ghost predicate Opened(v: Verdict, V: seq<Block>, T: seq<Dinode>, c: ICache, refs: seq<nat>,
    V': seq<Block>, T': seq<Dinode>, c': ICache, refs': seq<nat>, q: nat, i: nat)
  {
    match v
    case Refused => q == NINODE && SameRefs(c, refs, c', refs') && V' == V && T' == T
    case Existing(j) => i == j && OneMore(c, refs, c', refs', q, i) && V' == V && T' == T
    case Fresh(d, key) => OneMore(c, refs, c', refs', q, i) && Created(V, T, V', T', d, key, i)
  }

  lemma NextFound(V: seq<Block>, T: seq<Dinode>, d: nat, name: Name, j: nat, off: nat)
    requires d < |T| && IsDir(T[d]) && FoundAt(Content(V, T[d]), name, j, off)
    ensures Next(V, T, d, Key(name)) == j != 0
  {
    hide DirMap, Key, Inum, Content;
  }

  lemma NextMissed(V: seq<Block>, T: seq<Dinode>, d: nat, name: Name)
    requires d < |T| && IsDir(T[d]) && Key(name) !in DirMap(Content(V, T[d]))
    ensures Key(name) !in Listing(V, T, d) && Next(V, T, d, Key(name)) == 0
  {
    hide DirMap, Key, Content;
  }

  /** ilock of the inode found, and the check that a directory is not opened for writing. */
  method Admit(fs: Fs, q: nat, bar: bool, ghost i: nat, ghost c0: ICache, ghost refs0: seq<nat>) returns (r: nat)
    requires fs.Good() && OneMore(c0, refs0, fs.ic, fs.refs, q, i) && |refs0| == |fs.T|
    modifies fs`ic, fs`refs, fs.log.bc
    ensures fs.Good() && fs.V() == old(fs.V()) && i < |fs.T|
    ensures if fs.T[i].typ == T_DIR && bar then r == NINODE && SameRefs(c0, refs0, fs.ic, fs.refs)
            else r == q && OneMore(c0, refs0, fs.ic, fs.refs, q, i) && fs.At(q, i)
  {
    hide Fs.Up, Consistent, CacheOk, Refs, Typed, Tidy, SameRefs, OneMore;
    OneAt(c0, refs0, fs.ic, fs.refs, q, i);
    CacheShape(fs.ic, fs.T);
    ghost var c := fs.ic;
    fs.Ilock(q, i);
    LoadedMore(c0, refs0, c, fs.refs, q, i, fs.T[i]);
    if fs.ic.din[q].typ == T_DIR && bar {
      fs.PutBack(q, i, c0, refs0);
      return NINODE;
    }
    return q;
  }

  /** sys_open up to the file table, with O_CREATE. */
  method OpenCreate(fs: Fs, path: seq<byte>, omode: nat, name0: Name) returns (ok: bool, q: nat, ghost i: nat)
    requires fs.Good() && fs.InOp() && fs.S() == {} && IsPath(path) && Creates(omode)
    modifies fs`ic, fs`T, fs`owner, fs`refs, fs`names, fs.log, fs.log.bc
    ensures fs.Up()
    ensures !ok ==> OpenStuck(Resolve(old(fs.V()), old(fs.T), path, omode), fs.sb, old(fs.V()), old(fs.T), old(fs.ic))
    ensures ok ==> && fs.Good() && fs.InOp() && (q != NINODE ==> fs.At(q, i)) && |fs.owner| <= |old(fs.owner)| + 2
                   && Opened(Resolve(old(fs.V()), old(fs.T), path, omode), old(fs.V()), old(fs.T), old(fs.ic),
                             old(fs.refs),
                             fs.V(), fs.T, fs.ic, fs.refs, q, i)
  {
    hide Fs.Up, Consistent, CacheOk, Refs, Typed, Tidy, SameRefs, OneMore, Got, NameIParent, Comps, Next, Content,
         Created, DirMap, Key, Bit;
    ghost var c0, refs0, V0, T0 := fs.ic, fs.refs, fs.V(), fs.T;
    var dp, name;
    ghost var d;
    ok, dp, name, d := fs.Namex(path, true, name0);
    if !ok || dp == NINODE { return ok, NINODE, 0; }
    OneAt(c0, refs0, fs.ic, fs.refs, dp, d);
    dp := Admit(fs, dp, false, d, c0, refs0);
    ghost var c1, refs1 := fs.ic, fs.refs;
    var off;
    ok, q, off, i := fs.Dirlookup(dp, name, d);
    if !ok {
      TightOne(c0, refs0, c1, refs1, dp, d);
      return;
    }
    if q != NINODE {
      NextFound(V0, T0, d, name, i, off);
      HandOver(c0, refs0, c1, refs1, dp, d, fs.ic, fs.refs, q, i);
      fs.KeepsGood(dp);
      fs.Iunlockput(dp, d);
      q := Admit(fs, q, Writes(omode), i, c0, refs0);
      return;
    }
    NextMissed(V0, T0, d, name);
    fs.ShortIs(2);
    ok, q, i := NewFile(fs, dp, name, d, c0, refs0);
  }

  /** sys_open up to the file table, without O_CREATE. */
  method OpenOnly(fs: Fs, path: seq<byte>, omode: nat, name0: Name) returns (ok: bool, q: nat, ghost i: nat)
    requires fs.Good() && fs.InOp() && fs.S() == {} && IsPath(path) && !Creates(omode)
    modifies fs`ic, fs`T, fs`owner, fs`refs, fs`names, fs.log, fs.log.bc
    ensures fs.Up()
    ensures !ok ==> OpenStuck(Resolve(old(fs.V()), old(fs.T), path, omode), fs.sb, old(fs.V()), old(fs.T), old(fs.ic))
    ensures ok ==> && fs.Good() && fs.InOp() && (q != NINODE ==> fs.At(q, i)) && |fs.owner| <= |old(fs.owner)| + 2
                   && Opened(Resolve(old(fs.V()), old(fs.T), path, omode), old(fs.V()), old(fs.T), old(fs.ic),
                             old(fs.refs),
                             fs.V(), fs.T, fs.ic, fs.refs, q, i)
  {
    hide Fs.Up, Consistent, CacheOk, Refs, Typed, Tidy, SameRefs, OneMore, NameI, Created, Bit;
    ghost var c0, refs0 := fs.ic, fs.refs;
    var name;
    ok, q, name, i := fs.Namex(path, false, name0);
    if !ok || q == NINODE { return; }
    OneAt(c0, refs0, fs.ic, fs.refs, q, i);
    q := Admit(fs, q, omode != 0, i, c0, refs0);
  }

  /** Name `key` of file `j` is gone from directory `d`; the file too, if that was its last link. */
  ghost predicate Unlinked(V: seq<Block>, T: seq<Dinode>, V': seq<Block>, T': seq<Dinode>, d: nat, key: seq<byte>,
      j: nat) {
    && |T'| == |T| && d < |T| && 0 < j < |T| && d != j
    && IsDir(T[d]) && IsDir(T'[d]) && T'[d] == T[d].(addrs := T'[d].addrs)
    && key in Listing(V, T, d) && Listing(V, T, d)[key] == j && Listing(V', T', d) == Listing(V, T, d) - {key}
    && (exists k: nat :: Erased(Content(V, T[d]), Content(V', T'[d]), k, key)) && T[j].nlink > 0
    && (if T[j].nlink == 1 then NoAddrs(T'[j]) && T'[j] == T[j].(typ := 0, nlink := 0, size := 0, addrs := T'[j].addrs)
        else T'[j] == T[j].(nlink := T[j].nlink - 1) && (WfFile(T[j]) ==> Content(V', T'[j]) == Content(V, T[j])))
    && forall m {:trigger T'[m]} :: 0 <= m < |T| && m != d && m != j ==>
         T'[m] == T[m] && (WfFile(T[m]) ==> Content(V', T'[m]) == Content(V, T[m]))
  }

  /** The three stages of an unlink: the entry (1), the link count (2), the file (3). */
  lemma UnlinkedIs(V: seq<Block>, T: seq<Dinode>, V1: seq<Block>, T1: seq<Dinode>, V2: seq<Block>, T2: seq<Dinode>,
    V3: seq<Block>, T3: seq<Dinode>, d: nat, off: nat, key: seq<byte>, j: nat)
    requires Unlisted(V, T, V1, T1, d, off, j) && d != j && key in Listing(V, T, d) && Listing(V, T, d)[key] == j
    requires NamedKey(V, T, d, off, key) && T[j].nlink > 0
    requires SameFiles(V1, T1, V2, T2) && T2 == T1[j := T1[j].(nlink := T1[j].nlink - 1)]
             && Listing(V2, T2, d) == Listing(V1, T1, d)
    requires if T2[j].nlink == 0 then Freed(V2, T2, V3, T3, j) && Listing(V3, T3, d) == Listing(V2, T2, d)
             else V3 == V2 && T3 == T2
    ensures Unlinked(V, T, V3, T3, d, key, j)
  {
    hide Listing, Nameless, FileByte, NameOf, Key, Inum;
    SameOnly(V1, T1, V2, T2, j);
    OnlyAt(V1, T1, V2, T2, j, d);
    OnlyAt(V, T, V1, T1, d, j);
    if T2[j].nlink == 0 { OnlyAt(V2, T2, V3, T3, j, d); }
    forall m | 0 <= m < |T| && m != d && m != j
      ensures T3[m] == T[m] && (WfFile(T[m]) ==> Content(V3, T3[m]) == Content(V, T[m]))
    {
      assert T1[m] == T[m] && T2[m] == T1[m] && T3[m] == T2[m];
    }
    if T2[j].nlink > 0 && WfFile(T[j]) { SameContent(V1, T1, V2, T2, j); }
  }

  lemma SameContent(V: seq<Block>, T: seq<Dinode>, V': seq<Block>, T': seq<Dinode>, j: nat)
    requires SameFiles(V, T, V', T') && j < |T| && WfFile(T[j]) && T'[j].size == T[j].size
             && |T'[j].addrs| == NDIRECT + 1
    ensures Content(V', T'[j]) == Content(V, T[j])
  {
    hide FileByte;
  }

  /** `ip->nlink--; iupdate(ip)` of sys_unlink, after the entry has been zeroed. */
  method DropLink(fs: Fs, q: nat, ghost j: nat)
    requires fs.Good() && fs.InOp() && fs.At(q, j) && fs.T[j].typ != 0 && fs.T[j].typ != T_DIR && |fs.S()| < LOGOP
    modifies fs`ic, fs`T, fs.log, fs.log.bc
    ensures fs.Ready(-1) && fs.Counted() && fs.InOp() && fs.S() == old(fs.S()) + {IBlock(fs.sb, j)} && fs.At(q, j)
    ensures old(fs.T)[j].nlink > 0 && fs.T == old(fs.T)[j := old(fs.T)[j].(nlink := old(fs.T)[j].nlink - 1)]
    ensures fs.ic == old(fs.ic).(din := old(fs.ic.din)[q := fs.T[j]]) && SameFiles(old(fs.V()), old(fs.T), fs.V(), fs.T)
    ensures Dirs(fs.V(), fs.T) && Named(fs.V(), fs.T, fs.names) && LinkedBut(fs.T, j)
    ensures forall m :: Nameless(old(fs.V()), old(fs.T), m) ==> Nameless(fs.V(), fs.T, m)
    ensures forall i :: Listing(fs.V(), fs.T, i) == Listing(old(fs.V()), old(fs.T), i)
  {
    hide Fs.Up, Consistent, CacheOk, Refs, Typed, Dirs, Named, SameFiles, OnlyFile, Listing, Nameless, IBlock;
    ghost var V0, T0, c := fs.V(), fs.T, fs.ic;
    fs.OpenWf(q, j);
    assert Linked(fs.T);
    assert fs.ic.din[q].nlink >= 1;       // panic("unlink: nlink < 1") is not reached
    fs.SetMeta(q, fs.ic.din[q].(nlink := fs.ic.din[q].nlink - 1), j);
    Recount(c, T0, fs.refs, q, j, fs.T[j]);
    SameOnly(V0, T0, fs.V(), fs.T, j);
    TidyFile(V0, T0, fs.V(), fs.T, fs.names, j);
  }

  /** The destructive part of sys_unlink: zero the entry, drop the link, release both inodes. */
  method Unname(fs: Fs, dp: nat, q: nat, off: nat, ghost d: nat, ghost j: nat, ghost key: seq<byte>, ghost c0: ICache,
      ghost refs0: seq<nat>)
    returns (ok: bool)
    requires fs.Good() && fs.InOp() && fs.S() == {} && TwoMore(c0, refs0, fs.ic, fs.refs, dp, d, q, j)
             && |refs0| == |fs.T|
    requires fs.At(dp, d) && fs.At(q, j) && EntryAt(fs.V(), fs.T, d, off, j) && d != j && fs.T[j].typ != 0
    requires key in Listing(fs.V(), fs.T, d) && Listing(fs.V(), fs.T, d)[key] == j
             && NamedKey(fs.V(), fs.T, d, off, key)
    modifies fs`ic, fs`T, fs`owner, fs`refs, fs.log, fs.log.bc
    ensures fs.Up()
    ensures !ok ==> NoFree(fs.sb, fs.V()) && old(fs.Short(2))
    ensures ok ==> fs.Good(q) && (fs.Good() <==> old(fs.T)[j].nlink > 1 || refs0[j] == 0)
    ensures ok ==> fs.InOp() && SameRefs(c0, refs0, fs.ic, fs.refs)
                   && Unlinked(old(fs.V()), old(fs.T), fs.V(), fs.T, d, key, j)
  {
    hide Fs.Up, Consistent, CacheOk, Refs, Typed, Tidy, SameFiles, OnlyFile, Listing, Nameless, IBlock, TwoMore,
         OneMore, SameRefs, Unlisted, Freed, EntryAt, Unlinked, NamedKey;
    ghost var V0, T0, c := fs.V(), fs.T, fs.ic;
    TwoAt(c0, refs0, fs.ic, fs.refs, dp, d, q, j);
    ok := fs.ZeroEntry(dp, off, d, j);
    if !ok { return; }
    ghost var V1, T1, c1, S1 := fs.V(), fs.T, fs.ic, fs.S();
    UnlistedAt(V0, T0, V1, T1, d, off, j);
    SameLoad(c, fs.refs, dp, T1[d]);
    TwoSame(c0, refs0, c, fs.refs, dp, d, q, j, c1, fs.refs);
    CardSub(S1, Foot(fs.sb, S1, d, T1[d]));
    DropLink(fs, q, j);
    ghost var V2, T2, c2 := fs.V(), fs.T, fs.ic;
    SameLoad(c1, fs.refs, q, T2[j]);
    TwoSame(c0, refs0, c1, fs.refs, dp, d, q, j, c2, fs.refs);
    UnnameRoom(fs.sb, S1, fs.S(), d, T1[d], j);
    ReleaseBoth(fs, dp, q, d, j, c0, refs0);
    if T2[j].nlink == 0 { FreedAt(V2, T2, fs.V(), fs.T, j, d); }
    UnlinkedIs(V0, T0, V1, T1, V2, T2, fs.V(), fs.T, d, off, key, j);
  }

  /** `iunlockput(dp)`, the freeing of a file without links, `iunlockput(ip)`. */
  method ReleaseBoth(fs: Fs, dp: nat, q: nat, ghost d: nat, ghost j: nat, ghost c0: ICache, ghost refs0: seq<nat>)
    requires fs.Ready(-1) && fs.Counted() && fs.InOp() && TwoMore(c0, refs0, fs.ic, fs.refs, dp, d, q, j) && d != j
    requires |refs0| == |fs.T| && fs.At(dp, d) && fs.At(q, j) && IsDir(fs.T[d])
    requires Dirs(fs.V(), fs.T) && Named(fs.V(), fs.T, fs.names) && LinkedBut(fs.T, j) && Nameless(fs.V(), fs.T, j)
    requires fs.T[j].typ != T_DIR && IBlock(fs.sb, j) in fs.S()
             && |fs.S() + {fs.sb.bmapstart, IBlock(fs.sb, j)}| <= LOGOP
    modifies fs`ic, fs`T, fs`owner, fs`refs, fs.log, fs.log.bc
    ensures fs.Good(q) && fs.InOp() && SameRefs(c0, refs0, fs.ic, fs.refs)
            && (fs.Good() <==> old(fs.T)[j].nlink > 0 || refs0[j] == 0)
    ensures if old(fs.T)[j].nlink == 0 then Freed(old(fs.V()), old(fs.T), fs.V(), fs.T, j)
            else fs.V() == old(fs.V()) && fs.T == old(fs.T)
  {
    hide Fs.Up, Consistent, CacheOk, Refs, Typed, Tidy, Nameless, IBlock, TwoMore, OneMore, SameRefs, Freed, Dirs,
         Named;
    ghost var c, refs := fs.ic, fs.refs;
    TwoDrop(c0, refs0, c, refs, dp, d, q, j);
    OtherOpen(c, dp, q, fs.T, d, j);
    assert fs.T[d].nlink != 0;
    fs.Iput(dp, d);
    SoleRef(c0, refs0, fs.ic, fs.refs, q, j);
    ghost var c1, refs1 := fs.ic, fs.refs;
    fs.Release(q, j);
    OneDin(c0, refs0, c1, refs1, q, j, fs.T[j]);
    GiveBack(c0, refs0, c1.(din := c1.din[q := fs.T[j]]), refs1, q, j);
  }

  lemma UnnameRoom(sb: Superblock, S1: set<nat>, S2: set<nat>, d: nat, e: Dinode, j: nat)
    requires |e.addrs| == NDIRECT + 1 && |Foot(sb, S1, d, e)| < LOGOP && S2 == S1 + {IBlock(sb, j)}
    ensures |S2 + {sb.bmapstart, IBlock(sb, j)}| <= LOGOP
  {
    CardAdd(Foot(sb, S1, d, e), IBlock(sb, j));
    CardSub(S2 + {sb.bmapstart, IBlock(sb, j)}, Foot(sb, S1, d, e) + {IBlock(sb, j)});
  }

  lemma UnlistedAt(V: seq<Block>, T: seq<Dinode>, V': seq<Block>, T': seq<Dinode>, i: nat, off: nat, j: nat)
    requires Unlisted(V, T, V', T', i, off, j) && i != j
    ensures OnlyFile(V, T, V', T', i) && Nameless(V', T', j) && |T'| == |T| && i < |T| && j < |T| && T'[j] == T[j]
            && IsDir(T'[i])
    ensures T'[i] == T[i].(addrs := T'[i].addrs) && T[j].typ != T_DIR
  {
    hide Listing, Nameless, NameOf, Key, Inum, Content;
    OnlyAt(V, T, V', T', i, j);
  }

  lemma FreedAt(V: seq<Block>, T: seq<Dinode>, V': seq<Block>, T': seq<Dinode>, j: nat, d: nat)
    requires Freed(V, T, V', T', j) && d != j
    ensures Listing(V', T', d) == Listing(V, T, d)
  {
    hide Content, DirMap, WfFile;
    if d < |T| { assert T'[d] == T[d]; }
  }

  /** The entry at `off` carries the name `key`. */
  ghost predicate NamedKey(V: seq<Block>, T: seq<Dinode>, d: nat, off: nat, key: seq<byte>) {
    && d < |T| && IsDir(T[d]) && off + DESIZE <= T[d].size
    && key == Key(NameOf(Content(V, T[d]), off / DESIZE))
  }

  const DOT: byte := 46

  /** `name[0] == '.' && (name[1] == 0 || (name[1] == '.' && name[2] == 0))` */
  predicate IsDots(name: Name) {
    name[0] == DOT && (name[1] == 0 || (name[1] == DOT && name[2] == 0))
  }

  lemma DotsKey(name: Name)
    ensures IsDots(name) <==> Key(name) == [DOT] || Key(name) == [DOT, DOT]
  {
    var a, b := name[1..], name[1..][1..];
    assert Key(name) == if name[0] == 0 then [] else [name[0]] + Key(a);
    assert Key(a) == if name[1] == 0 then [] else [name[1]] + Key(b);
    assert Key(b) == if name[2] == 0 then [] else [name[2]] + Key(b[1..]);
    if name[0] == DOT && name[1] == DOT && name[2] != 0 { assert |Key(name)| >= 3; }
    if name[0] == DOT && name[1] != DOT && name[1] != 0 { assert Key(name)[1] == name[1]; }
  }

  datatype Target = NoTarget | Target(d: nat, key: seq<byte>, j: nat)

  /** The entry that sys_unlink removes: files only, and not "." or "..". */
  ghost function UnlinkTarget(V: seq<Block>, T: seq<Dinode>, path: seq<byte>): Target {
    var d := NameIParent(V, T, path);
    if d == 0 then NoTarget else
      var key := Comps(path)[|Comps(path)| - 1];
      var j := Next(V, T, d, key);
      if key == [DOT] || key == [DOT, DOT] || j == 0 || (j < |T| && T[j].typ == T_DIR) then NoTarget
      else Target(d, key, j)
  }

  /** sys_unlink between begin_op and end_op. It does not look at references: the invariant is
      kept if and only if the file keeps a link or nobody holds it; if not, slot `w` is left
      with a freed inode. */
  method UnlinkPath(fs: Fs, path: seq<byte>, name0: Name) returns (ok: bool, r: int, ghost w: int)
    requires fs.Good() && fs.InOp() && fs.S() == {} && IsPath(path)
    modifies fs`ic, fs`T, fs`owner, fs`refs, fs`names, fs.log, fs.log.bc
    ensures fs.Up()
    ensures !ok ==> (Busy(fs.ic) && Tight(old(fs.ic)))
                    || (NoFree(fs.sb, fs.V()) && |FreeBlocks(fs.sb, old(fs.V()))| < 2)
    ensures ok ==> fs.Good(w)
                   && (fs.Good() <==> Spared(UnlinkTarget(old(fs.V()), old(fs.T), path), old(fs.T), old(fs.refs)))
    ensures ok ==> && fs.InOp() && SameRefs(old(fs.ic), old(fs.refs), fs.ic, fs.refs)
                   && Removed(UnlinkTarget(old(fs.V()), old(fs.T), path), old(fs.V()), old(fs.T), fs.V(), fs.T, r)
  {
    hide Fs.Up, Consistent, CacheOk, Refs, Typed, Tidy, SameRefs, OneMore, Got, NameIParent, Comps, Next, Content,
         Unlinked, DirMap, Key, TwoMore, NoFree;
    ghost var c0, refs0, V0, T0 := fs.ic, fs.refs, fs.V(), fs.T;
    var dp, name;
    ghost var d;
    ok, dp, name, d := fs.Namex(path, true, name0);
    if !ok || dp == NINODE { return ok, -1, -1; }
    OneAt(c0, refs0, fs.ic, fs.refs, dp, d);
    dp := Admit(fs, dp, false, d, c0, refs0);
    DotsKey(name);
    if IsDots(name) {
      fs.PutBack(dp, d, c0, refs0);
      return true, -1, -1;
    }
    fs.ShortIs(2);
    ok, r, w := UnlinkIn(fs, dp, name, d, c0, refs0);
  }

  /** No slot of the inode cache refers to the target, or it keeps a link. */
  ghost predicate Spared(t: Target, T: seq<Dinode>, refs: seq<nat>) {
    t.Target? && t.j < |T| && t.j < |refs| ==> refs[t.j] == 0 || T[t.j].nlink > 1
  }

  ghost predicate Removed(t: Target, V: seq<Block>, T: seq<Dinode>, V': seq<Block>, T': seq<Dinode>, r: int) {
    match t
    case NoTarget => r == -1 && V' == V && T' == T
    case Target(d, key, j) => r == 0 && Unlinked(V, T, V', T', d, key, j)
  }

  /** sys_unlink, from the lookup in the directory of slot `dp` on. */
  method UnlinkIn(fs: Fs, dp: nat, name: Name, ghost d: nat, ghost c0: ICache, ghost refs0: seq<nat>)
    returns (ok: bool, r: int, ghost w: int)
    requires fs.Good() && fs.InOp() && fs.S() == {} && OneMore(c0, refs0, fs.ic, fs.refs, dp, d) && |refs0| == |fs.T|
    requires fs.At(dp, d) && IsDir(fs.T[d])
    modifies fs`ic, fs`T, fs`owner, fs`refs, fs`names, fs.log, fs.log.bc
    ensures fs.Up()
    ensures !ok ==> (Busy(fs.ic) && Tight(c0)) || (NoFree(fs.sb, fs.V()) && old(fs.Short(2)))
    ensures ok ==> && fs.Good(w) && fs.InOp() && SameRefs(c0, refs0, fs.ic, fs.refs)
                   && var j := Next(old(fs.V()), old(fs.T), d, Key(name));
                      if j == 0 || (j < |old(fs.T)| && old(fs.T)[j].typ == T_DIR) then
                        r == -1 && fs.V() == old(fs.V()) && fs.T == old(fs.T) && fs.Good()
                      else && r == 0 && Unlinked(old(fs.V()), old(fs.T), fs.V(), fs.T, d, Key(name), j)
                           && j < |old(fs.T)| == |refs0| && (fs.Good() <==> old(fs.T)[j].nlink > 1 || refs0[j] == 0)
  {
    hide Fs.Up, Consistent, CacheOk, Refs, Typed, Tidy, SameRefs, OneMore, Got, Next, Content, Unlinked, DirMap, Key,
         TwoMore, NoFree, Inum, FoundAt;
    ghost var c1, refs1, V0, T0 := fs.ic, fs.refs, fs.V(), fs.T;
    OneAt(c0, refs0, fs.ic, fs.refs, dp, d);
    var q, off;
    ghost var j;
    ok, q, off, j := fs.Dirlookup(dp, name, d);
    w := -1;
    if !ok {
      TightOne(c0, refs0, c1, refs1, dp, d);
      return false, 0, w;
    }
    if q == NINODE {
      NextMissed(V0, T0, d, name);
      fs.PutBack(dp, d, c0, refs0);
      return true, -1, w;
    }
    NextFound(V0, T0, d, name, j, off);
    TwoGot(c0, refs0, c1, refs1, dp, d, fs.ic, fs.refs, q, j);
    TwoAt(c0, refs0, fs.ic, fs.refs, dp, d, q, j);
    ghost var c2, refs2 := fs.ic, fs.refs;
    CacheShape(fs.ic, fs.T);
    fs.Ilock(q, j);
    SameIlock(c2, refs2, q, fs.T[j]);
    TwoSame(c0, refs0, c2, refs2, dp, d, q, j, fs.ic, fs.refs);
    if fs.ic.din[q].typ == T_DIR {
      TwoSwap(c0, refs0, fs.ic, fs.refs, dp, d, q, j);
      TwoAt(c0, refs0, fs.ic, fs.refs, q, j, dp, d);
      TwoDrop(c0, refs0, fs.ic, fs.refs, q, j, dp, d);
      fs.KeepsGood(q);
      fs.Iunlockput(q, j);
      fs.PutBack(dp, d, c0, refs0);
      return true, -1, w;
    }
    OpenAfterGot(c1, refs1, c2, refs2, q, j, fs.ic, fs.refs, fs.T, dp, d);
    EntryFound(V0, T0, d, name, j, off);
    ok := Unname(fs, dp, q, off, d, j, Key(name), c0, refs0);
    return ok, 0, q;
  }

  lemma EntryFound(V: seq<Block>, T: seq<Dinode>, d: nat, name: Name, j: nat, off: nat)
    requires d < |T| && j < |T| && IsDir(T[d]) && FoundAt(Content(V, T[d]), name, j, off)
    ensures T[j].typ != T_DIR ==> EntryAt(V, T, d, off, j) && d != j
    ensures NamedKey(V, T, d, off, Key(name)) && Key(name) in Listing(V, T, d) && Listing(V, T, d)[Key(name)] == j
  {
    hide DirMap, Key, Inum, Content;
  }

  /** The last step of a path. */
  lemma {:induction false} WalkLast(V: seq<Block>, T: seq<Dinode>, i: nat, comps: seq<seq<byte>>, key: seq<byte>)
    ensures Walk(V, T, i, comps + [key]) == if Walk(V, T, i, comps) == 0 then 0
                                            else Next(V, T, Walk(V, T, i, comps), key)
    decreases |comps|
  {
    if comps == [] {
      assert ([] + [key])[1..] == [];
    } else if i != 0 {
      assert (comps + [key])[1..] == comps[1..] + [key];
      WalkLast(V, T, Next(V, T, i, comps[0]), comps[1..], key);
    }
  }

  /** The path ends in the name `key` in directory `d`. */
  ghost predicate EndsIn(V: seq<Block>, T: seq<Dinode>, path: seq<byte>, d: nat, key: seq<byte>) {
    Comps(path) != [] && NameIParent(V, T, path) == d && Comps(path)[|Comps(path)| - 1] == key
  }

  /** A path that is not the root is its last step. */
  lemma PathLast(V: seq<Block>, T: seq<Dinode>, path: seq<byte>) returns (p: seq<seq<byte>>, k: seq<byte>)
    requires Comps(path) != []
    ensures Comps(path) == p + [k] && k == Comps(path)[|Comps(path)| - 1]
    ensures NameI(V, T, path) == if Walk(V, T, ROOTINO, p) == 0 then 0 else Next(V, T, Walk(V, T, ROOTINO, p), k)
    ensures forall d: nat {:trigger EndsIn(V, T, path, d, k)} ::
              0 < d < |T| && IsDir(T[d]) ==> (EndsIn(V, T, path, d, k) <==> Walk(V, T, ROOTINO, p) == d)
  {
    hide Comps, Next, Walk;
    var c := Comps(path);
    p, k := c[..|c| - 1], c[|c| - 1];
    assert c == p + [k];
    WalkLast(V, T, ROOTINO, p, k);
  }

  lemma CreatedNext(V: seq<Block>, T: seq<Dinode>, V': seq<Block>, T': seq<Dinode>, d: nat, key: seq<byte>, j: nat,
      i: nat, k: seq<byte>)
    requires Created(V, T, V', T', d, key, j)
    ensures Next(V', T', i, k) == (if i == d && k == key then j else Next(V, T, i, k))
    ensures Next(V, T, d, key) == Next(V, T, j, k) == Next(V', T', j, k) == 0 && d < |T| && IsDir(T[d]) && j != 0
  {
    hide Content, DirMap;
    if i != d && i != j && i < |T| { assert T'[i] == T[i]; }
  }

  /** Walks end where they did, except that some which ended nowhere end at the new file. */
  lemma {:induction false} CreateWalk(V: seq<Block>, T: seq<Dinode>, V': seq<Block>, T': seq<Dinode>, d: nat,
      key: seq<byte>, j: nat, i: nat, comps: seq<seq<byte>>)
    requires Created(V, T, V', T', d, key, j) && d > 0
    ensures Walk(V', T', i, comps) == Walk(V, T, i, comps) || (Walk(V, T, i, comps) == 0 && Walk(V', T', i, comps) == j)
    decreases |comps|
  {
    hide Created, Next;
    if comps != [] && i != 0 {
      CreatedNext(V, T, V', T', d, key, j, i, comps[0]);
      var n := Next(V', T', i, comps[0]);
      if i == d && comps[0] == key {
        assert Walk(V, T, 0, comps[1..]) == 0;
        if comps[1..] != [] {
          CreatedNext(V, T, V', T', d, key, j, j, comps[1..][0]);
          assert Walk(V', T', 0, comps[1..][1..]) == 0;
        }
      } else {
        CreateWalk(V, T, V', T', d, key, j, n, comps[1..]);
      }
    }
  }

  /** A created file is found under every path that ends in its name in its directory, and no
      other path resolves differently. */
  lemma CreateVisible(V: seq<Block>, T: seq<Dinode>, V': seq<Block>, T': seq<Dinode>, d: nat, key: seq<byte>, j: nat,
      path: seq<byte>)
    requires Created(V, T, V', T', d, key, j) && d > 0
    ensures NameI(V', T', path) == if EndsIn(V, T, path, d, key) then j else NameI(V, T, path)
    ensures EndsIn(V, T, path, d, key) ==> NameI(V, T, path) == 0
  {
    hide Created, Comps, Next, EndsIn;
    if Comps(path) == [] {
      assert !EndsIn(V, T, path, d, key) by { NoEnd(V, T, path, d, key); }
      return;
    }
    var p, k := PathLast(V, T, path);
    var p', k' := PathLast(V', T', path);
    SnocInj(p, k, p', k');
    CreateWalk(V, T, V', T', d, key, j, ROOTINO, p);
    CreatedNext(V, T, V', T', d, key, j, Walk(V, T, ROOTINO, p), k);
    CreatedNext(V, T, V', T', d, key, j, Walk(V', T', ROOTINO, p), k);
    EndsKey(V, T, path, d, key, k);
  }

  lemma NoEnd(V: seq<Block>, T: seq<Dinode>, path: seq<byte>, d: nat, key: seq<byte>)
    requires Comps(path) == []
    ensures !EndsIn(V, T, path, d, key)
  {
  }

  lemma EndsKey(V: seq<Block>, T: seq<Dinode>, path: seq<byte>, d: nat, key: seq<byte>, k: seq<byte>)
    requires Comps(path) != [] && k == Comps(path)[|Comps(path)| - 1]
    ensures EndsIn(V, T, path, d, key) <==> k == key && EndsIn(V, T, path, d, k)
  {
    hide NameIParent, Comps;
  }

  lemma SnocInj(p: seq<seq<byte>>, k: seq<byte>, p': seq<seq<byte>>, k': seq<byte>)
    requires p + [k] == p' + [k']
    ensures p == p' && k == k'
  {
    assert (p + [k])[..|p|] == p && (p' + [k'])[..|p'|] == p';
    assert (p + [k])[|p|] == k && (p' + [k'])[|p'|] == k';
  }

  lemma UnlinkedNext(V: seq<Block>, T: seq<Dinode>, V': seq<Block>, T': seq<Dinode>, d: nat, key: seq<byte>, j: nat,
      i: nat, k: seq<byte>)
    requires Unlinked(V, T, V', T', d, key, j) && T[j].typ != T_DIR
    ensures Next(V', T', i, k) == (if i == d && k == key then 0 else Next(V, T, i, k))
    ensures Next(V, T, d, key) == j && Next(V, T, j, k) == 0
  {
    hide Content, DirMap;
    if i != d && i != j && i < |T| { assert T'[i] == T[i]; }
  }

  /** Only paths to the unlinked file stop resolving. */
  lemma {:induction false} UnlinkWalk(V: seq<Block>, T: seq<Dinode>, V': seq<Block>, T': seq<Dinode>, d: nat,
      key: seq<byte>, j: nat, i: nat, comps: seq<seq<byte>>)
    requires Unlinked(V, T, V', T', d, key, j) && T[j].typ != T_DIR
    ensures var r := Walk(V, T, i, comps);
            Walk(V', T', i, comps) == r || (r == j && comps != [] && Walk(V', T', i, comps) == 0)
    decreases |comps|
  {
    hide Unlinked, Next;
    if comps != [] && i != 0 {
      UnlinkedNext(V, T, V', T', d, key, j, i, comps[0]);
      var n := Next(V, T, i, comps[0]);
      UnlinkWalk(V, T, V', T', d, key, j, n, comps[1..]);
      if i == d && comps[0] == key && comps[1..] != [] {
        UnlinkedNext(V, T, V', T', d, key, j, i, comps[1..][0]);
        assert Walk(V, T, j, comps[1..]) == Walk(V, T, 0, comps[1..][1..]) == 0;
      }
    }
  }

  /** Paths that end in the unlinked name in its directory resolve no more; all others resolve
      as before. */
  lemma UnlinkVisible(V: seq<Block>, T: seq<Dinode>, V': seq<Block>, T': seq<Dinode>, d: nat, key: seq<byte>, j: nat,
      path: seq<byte>)
    requires Unlinked(V, T, V', T', d, key, j) && T[j].typ != T_DIR && d > 0
    ensures NameI(V', T', path) == if EndsIn(V, T, path, d, key) then 0 else NameI(V, T, path)
    ensures EndsIn(V, T, path, d, key) ==> NameI(V, T, path) == j
  {
    hide Unlinked, Comps, Next, EndsIn;
    UnlinkedApart(V, T, V', T', d, key, j);
    if Comps(path) == [] {
      assert !EndsIn(V, T, path, d, key) by { NoEnd(V, T, path, d, key); }
      return;
    }
    var p, k := PathLast(V, T, path);
    var p', k' := PathLast(V', T', path);
    SnocInj(p, k, p', k');
    UnlinkWalk(V, T, V', T', d, key, j, ROOTINO, p);
    UnlinkedNext(V, T, V', T', d, key, j, Walk(V, T, ROOTINO, p), k);
    EndsKey(V, T, path, d, key, k);
  }

  lemma UnlinkedApart(V: seq<Block>, T: seq<Dinode>, V': seq<Block>, T': seq<Dinode>, d: nat, key: seq<byte>, j: nat)
    requires Unlinked(V, T, V', T', d, key, j)
    ensures d != j && d < |T| && IsDir(T[d]) && j > 0
  {
  }
}
