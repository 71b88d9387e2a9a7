/** A run of the system from mkfs on that unlinks an open file: sys_unlink frees the inode all the
    same (kernel/sysfile.c:315-322), so the state between calls is lost, and closing the file panics. */
module OpenUnlink {
  import opened Bytes
  import opened Bio
  import opened LogSpec
  import opened FsSpec
  import opened FsState
  import opened Dir
  import opened Fs
  import opened NameOps
  import opened UserMem
  import opened SysFile
  import opened Boot
  import opened Mkfs
  import Proc

  const LETTER: byte := 97
  const PATH: seq<byte> := [SLASH, LETTER]
  const O_CREATE := 512

  /** A slash and one letter are a path of one component. */
  lemma OneComp(p: seq<byte>, e: seq<byte>)
    requires |p| == 2 && |e| == 1 && p[0] == SLASH && p[1] == e[0] != SLASH
    ensures Comps(p) == [e]
  {
    hide Skip, ElemLen, Comps;
    assert p[1..] == e;
    SkipOne(p);
    SkipOne(e);
    ElemOne(e);
    ElemOne(e[1..]);
    CompsSkip(p);
    assert e[..1] == e;
    SkipOne(e[1..]);
    CompsSkip(e[1..]);
  }

  lemma ModeIs()
    ensures Creates(O_CREATE) && !Writes(O_CREATE)
  {
    assert Bit(16, 4) && Bit(64, 6) && Bit(256, 8);
  }

  /** sys_open of a name that the root directory does not have, with nothing open. */
  lemma OpenFresh(sb: Superblock, V: seq<Block>, T: seq<Dinode>, c: ICache)
    requires 2 < |T| && Listing(V, T, ROOTINO) == map[[DOT] := ROOTINO, [DOT, DOT] := ROOTINO]
             && Comps(PATH) == [[LETTER]] && Creates(O_CREATE)
    requires T[2].typ == 0 && T[ROOTINO].size == 2 * DESIZE && |c.ref| == NINODE
             && forall p :: 0 <= p < NINODE ==> c.ref[p] == 0
    requires |FreeBlocks(sb, V)| >= 2
    ensures Decide(V, T, Some(PATH), O_CREATE) == Fresh(ROOTINO, [LETTER])
            && !OpenStuck(Fresh(ROOTINO, [LETTER]), sb, V, T, c)
  {
    hide Comps, FreeBlocks, Creates, Bit, DirMap;
    assert [DOT] in Listing(V, T, ROOTINO);
    assert NameIParent(V, T, PATH) == ROOTINO;
    assert c.ref[0] == 0 && c.ref[1] == 0;
  }

  /** The descriptor and the file that sys_open finds when nothing is open. */
  lemma AttachFirst(t: FTable, o: seq<nat>, t': FTable, o': seq<nat>, q: nat, r: int)
    requires Attached(t, o, t', o', 0, q, O_CREATE, r) && t.ref[0] == 0 && o[Fd(0, 3)] == NFILE
    ensures r != -1
  {
  }

  /** The new file is open when its name is looked up again. */
  lemma Reopened(V: seq<Block>, T: seq<Dinode>, V': seq<Block>, T': seq<Dinode>, j: nat, refs: seq<nat>)
    requires Created(V, T, V', T', ROOTINO, [LETTER], j) && Comps(PATH) == [[LETTER]] && |refs| == |T'|
             && (j < |refs| ==> refs[j] > 0)
    ensures Aim(V', T', Some(PATH)) == Target(ROOTINO, [LETTER], j) && !Spared(Target(ROOTINO, [LETTER], j), T', refs)
  {
    hide Comps, DirMap, Content;
    assert NameIParent(V', T', PATH) == ROOTINO;
  }

  /** One slot in use out of fifty. */
  lemma NotTight(c0: ICache, refs0: seq<nat>, c: ICache, refs: seq<nat>, q: nat, i: nat)
    requires OneMore(c0, refs0, c, refs, q, i) && forall p :: 0 <= p < NINODE ==> c0.ref[p] == 0
    ensures !Tight(c) && i < |refs| && refs[i] > 0
  {
    var a, b := if q == 0 then 1 else 0, if q <= 1 then 2 else 1;
    assert c.ref[a] == 0 && c.ref[b] == 0;
  }

  lemma FourFree(V: seq<Block>)
    requires forall b: nat :: DataStart(SB) + 2 <= b < FSSIZE ==> b in FreeBlocks(SB, V)
    ensures |FreeBlocks(SB, V)| >= 4
  {
    hide FreeBlocks;
    CardSub({996, 997, 998, 999}, FreeBlocks(SB, V));
  }

  lemma RefsLength(k: Files)
    requires k.Valid()
    ensures |k.fs.refs| == |k.fs.T|
  {
    hide Fs.Up, Consistent, CacheOk, Refs, Typed, Tidy, TableOk, FdsOk, SuperIs;
  }

  lemma AttachedAt(t: FTable, o: seq<nat>, t': FTable, o': seq<nat>, q: nat, r: int)
    requires Attached(t, o, t', o', 0, q, O_CREATE, r) && r != -1
    ensures 0 <= r < NOFILE && |o'| == Proc.NPROC * NOFILE && Shape(t') && o'[Fd(0, r)] < NFILE
            && t'.ip[o'[Fd(0, r)]] == q
  {
  }

  /** The one reference stays as it is. */
  lemma OnlyRef(c0: ICache, refs0: seq<nat>, c: ICache, refs: seq<nat>, q: nat, i: nat, c': ICache, refs': seq<nat>)
    requires OneMore(c0, refs0, c, refs, q, i) && SameRefs(c, refs, c', refs')
             && forall p :: 0 <= p < NINODE ==> c0.ref[p] == 0
    ensures |c'.ref| == |c'.inum| == NINODE && q < NINODE && c'.ref[q] == 1 && c'.inum[q] == i
  {
  }

  lemma LinkGone(V0: seq<Block>, T0: seq<Dinode>, V: seq<Block>, T: seq<Dinode>, V': seq<Block>, T': seq<Dinode>,
      j: nat, r: int)
    requires Created(V0, T0, V, T, ROOTINO, [LETTER], j) && Removed(Target(ROOTINO, [LETTER], j), V, T, V', T', r)
    ensures j < |T'| && T'[j].nlink == 0
  {
    hide Listing, Content;
  }

  /** mkfs, boot, sys_open of "/a" with O_CREATE, sys_unlink of "/a": both calls succeed, and the
      slot of the open file holds a freed inode: sys_close of its descriptor is doomed. */
  method UnlinkOpen(name0: Name) returns (k: Files, fd: int, ghost w: int)
    ensures fresh(k) && fresh(k.fs)
    ensures k.Valid(w) && !k.Valid() && |k.ofile| == Proc.NPROC * NOFILE && k.Doomed(0, fd)
  {
    hide Consistent, Tidy, TableOk, FdsOk, DecSuper, SuperWord, Created, Home, Trail, Attached, OneMore, SameRefs,
         FreeBlocks,
         Fs.Up, CacheOk, Refs, Typed, Listing, Comps, Aim, Decide, Tight, OpenStuck, Spared, Creates, Writes, Removed;
    var im := Make();
    FourFree(im.disk);
    var disk := new Disk(im.disk);
    var m := Mount(disk, im.T, im.owner, map[]);
    k := m;
    OneComp(PATH, [LETTER]);
    ModeIs();
    ghost var V0, T0, c0, refs0 := k.fs.V(), k.fs.T, k.fs.ic, k.fs.refs;
    OpenFresh(SB, V0, T0, c0);
    var ok, r;
    ghost var i, q;
    ghost var t0, o0 := k.ft, k.ofile;
    ok, r, i, q := k.SysOpen(0, Some(PATH), O_CREATE, name0);
    AttachFirst(t0, o0, k.ft, k.ofile, q, r);
    NotTight(c0, refs0, k.fs.ic, k.fs.refs, q, i);
    RefsLength(k);
    Reopened(V0, T0, k.fs.V(), k.fs.T, i, k.fs.refs);
    fd := r;
    AttachedAt(t0, o0, k.ft, k.ofile, q, fd);
    ghost var V1, T1, c1, refs1 := k.fs.V(), k.fs.T, k.fs.ic, k.fs.refs;
    ok, r, w := k.SysUnlink(Some(PATH), name0);
    OnlyRef(c0, refs0, c1, refs1, q, i, k.fs.ic, k.fs.refs);
    LinkGone(V0, T0, V1, T1, k.fs.V(), k.fs.T, i, r);
  }
}
