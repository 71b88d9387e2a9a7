/** The block and inode layer of kernel/fs.c, on top of the log. A panic is the result
    `ok == false`: the kernel stops, so nothing more is written to the disk. */
module Fs {
  import opened Bytes
  import opened LogSpec
  import opened Reservation
  import opened Log
  import opened FsSpec
  import opened FsState
  import opened Dir

  const NINODE := 50

  /** Directory `i` has gained an entry for `inum` under the name `key`. */
  ghost predicate Enlisted(V: seq<Block>, T: seq<Dinode>, V': seq<Block>, T': seq<Dinode>, i: nat, key: seq<byte>,
      inum: nat) {
    && i < |T| && OnlyFile(V, T, V', T', i) && IsDir(T[i]) && IsDir(T'[i])
    && T' == T[i := T[i].(addrs := T'[i].addrs, size := T'[i].size)]
    && Listing(V', T', i) == Listing(V, T, i)[key := inum] && Entered(Content(V, T[i]), Content(V', T'[i]), key, inum)
  }

  /** dirlink's effect on directory `i`, by its result `r`: the entry goes where the first dead one is,
      and the directory grows only if there is none. */
  ghost predicate Relisted(V: seq<Block>, T: seq<Dinode>, V': seq<Block>, T': seq<Dinode>, i: nat, key: seq<byte>,
      inum: nat, r: int) {
    if key in Listing(V, T, i) then r == -1 && V' == V && T' == T
    else r == 0 && Enlisted(V, T, V', T', i, key, inum)
  }

  /** Directory `i` has no dead entry and is as large as a file can be. */
  ghost predicate DirFull(V: seq<Block>, T: seq<Dinode>, i: nat) {
    i < |T| && IsDir(T[i]) && AllLive(Content(V, T[i])) && T[i].size + DESIZE > MAXBYTES
  }

  /** ialloc's effect: the first free inode `j` is an empty file without links or names. */
  ghost predicate Claim(V: seq<Block>, T: seq<Dinode>, V': seq<Block>, T': seq<Dinode>, names: map<nat, Slot>, j: nat,
      typ: nat) {
    && 1 <= j < |T| && T[j].typ == 0 && (forall m :: 1 <= m < j ==> T[m].typ != 0)
    && T' == T[j := Blank(typ)] && OnlyFile(V, T, V', T', j)
    && Nameless(V, T, j) && Dirs(V, T) && Named(V, T, names) && Linked(T)
  }

  lemma ClaimIs(V: seq<Block>, T: seq<Dinode>, V': seq<Block>, names: map<nat, Slot>, j: nat, typ: nat)
    requires Tidy(V, T, names) && 1 <= j < |T| && T[j].typ == 0 && forall m :: 1 <= m < j ==> T[m].typ != 0
    requires SameFiles(V, T, V', T[j := Blank(typ)])
    ensures Claim(V, T, V', T[j := Blank(typ)], names, j, typ)
  {
    hide SameFiles, Ent, Dirs, OnlyFile;
    FreeUnnamed(V, T, names, j);
    SameOnly(V, T, V', T[j := Blank(typ)], j);
  }

  /** The live entry of directory `i` at offset `off` names file `j`. */
  ghost predicate EntryAt(V: seq<Block>, T: seq<Dinode>, i: nat, off: nat, j: nat) {
    && i < |T| && IsDir(T[i]) && off % DESIZE == 0 && off + DESIZE <= T[i].size && 0 < j < |T| && T[j].typ != T_DIR
    && Inum(Content(V, T[i]), off / DESIZE) == j
  }

  lemma EntryAtIs(V: seq<Block>, T: seq<Dinode>, i: nat, off: nat, j: nat)
    requires EntryAt(V, T, i, off, j)
    ensures i < |T| && IsDir(T[i]) && DESIZE * (off / DESIZE) == off
            && off + DESIZE <= T[i].size == |Content(V, T[i])| <= MAXBYTES
    ensures off / DESIZE < Slots(Content(V, T[i])) && Inum(Content(V, T[i]), off / DESIZE) == j && 0 < j < |T|
            && T[j].typ != T_DIR
  {
  }

  /** The entry at `off` is gone from directory `i`, and `j` with it. */
  ghost predicate Unlisted(V: seq<Block>, T: seq<Dinode>, V': seq<Block>, T': seq<Dinode>, i: nat, off: nat, j: nat) {
    && EntryAt(V, T, i, off, j) && OnlyFile(V, T, V', T', i) && IsDir(T'[i]) && Nameless(V', T', j)
    && T'[i] == T[i].(addrs := T'[i].addrs)
    && Listing(V', T', i) == Listing(V, T, i) - {Key(NameOf(Content(V, T[i]), off / DESIZE))}
    && Erased(Content(V, T[i]), Content(V', T'[i]), off / DESIZE, Key(NameOf(Content(V, T[i]), off / DESIZE)))
  }

  lemma UnlistedIs(V: seq<Block>, T: seq<Dinode>, V': seq<Block>, T': seq<Dinode>, i: nat, off: nat, j: nat)
    requires EntryAt(V, T, i, off, j) && OnlyFile(V, T, V', T', i) && IsDir(T'[i]) && Nameless(V', T', j)
    requires T'[i] == T[i].(addrs := T'[i].addrs)
    requires Listing(V', T', i) == Listing(V, T, i) - {Key(NameOf(Content(V, T[i]), off / DESIZE))}
    requires Erased(Content(V, T[i]), Content(V', T'[i]), off / DESIZE, Key(NameOf(Content(V, T[i]), off / DESIZE)))
    ensures Unlisted(V, T, V', T', i, off, j)
  {
  }

  /** File `i` has been emptied and its inode marked free. */
  ghost predicate Freed(V: seq<Block>, T: seq<Dinode>, V': seq<Block>, T': seq<Dinode>, i: nat) {
    && OnlyFile(V, T, V', T', i) && i < |T| && NoAddrs(T'[i])
    && T'[i] == T[i].(typ := 0, size := 0, addrs := T'[i].addrs) && T' == T[i := T'[i]]
  }

  /** Every allocated inode but `i` has a link. */
  ghost predicate LinkedBut(T: seq<Dinode>, i: nat) {
    forall m {:trigger T[m]} :: 0 <= m < |T| && m != i && T[m].typ != 0 ==> T[m].nlink != 0
  }

  /** What a disk stands for. */
  ghost function Stands(d: seq<Block>, g: Geometry): seq<Block> {
    if WfDisk(d, g) then Home(d, g) else d
  }

  lemma SameSelf(c: ICache, refs: seq<nat>)
    requires |c.inum| == |c.ref| == |c.valid| == NINODE
    ensures SameRefs(c, refs, c, refs)
  {
  }

  /** A directory entry does not straddle blocks. */
  lemma SpanEntry(k: nat)
    ensures Span(DESIZE * k, DESIZE) == 1
  {
  }

  lemma Relinked(V: seq<Block>, T: seq<Dinode>, names: map<nat, Slot>, i: nat, d: Dinode)
    requires Tidy(V, T, names) && i < |T| && d.nlink == T[i].nlink && d.typ == T[i].typ
    ensures Linked(T[i := d])
  {
  }

  lemma WalkEnd(V: seq<Block>, T: seq<Dinode>, i: nat)
    ensures Walk(V, T, i, []) == i && WalkParent(V, T, i, []) == 0
  {
  }

  lemma NotInLog(sb: Superblock, b: nat)
    requires SbOk(sb) && sb.inodestart <= b
    ensures !InLog(Geo(sb), b) && Geo(sb).low <= b && b > 1
  {
  }

  /** The inode cache, one sequence per field of `struct inode`. */
  datatype ICache = ICache(inum: seq<nat>, ref: seq<nat>, valid: seq<bool>, din: seq<Dinode>)

  ghost predicate CacheOk(c: ICache, T: seq<Dinode>) {
    && |c.inum| == |c.ref| == |c.valid| == |c.din| == NINODE
    && (forall p {:trigger c.ref[p]} :: 0 <= p < NINODE && c.ref[p] > 0 ==>
          1 <= c.inum[p] < |T| && (c.valid[p] ==> c.din[p] == T[c.inum[p]]))
    && (forall p, q {:trigger c.ref[p], c.ref[q]} :: 0 <= p < NINODE && 0 <= q < NINODE
          && c.ref[p] > 0 && c.ref[q] > 0 && c.inum[p] == c.inum[q]
          ==> p == q)
  }

  /** `refs[i]` counts the references to inode `i`; one slot holds them all. */
  ghost predicate Refs(c: ICache, refs: seq<nat>) {
    && |c.inum| == |c.ref| == |c.valid| == |c.din| == NINODE
    && (forall p {:trigger c.ref[p]} :: 0 <= p < NINODE && c.ref[p] > 0 ==>
          c.inum[p] < |refs| && refs[c.inum[p]] == c.ref[p])
    && (forall i {:trigger refs[i]} :: 0 <= i < |refs| && refs[i] > 0 ==>
          exists p :: 0 <= p < NINODE && c.ref[p] > 0 && c.inum[p] == i)
  }

  /** Referenced slots hold allocated inodes, except perhaps slot `ex`. */
  ghost predicate Typed(c: ICache, T: seq<Dinode>, ex: int := -1) {
    && |c.inum| == |c.ref| == |c.valid| == |c.din| == NINODE
    && forall p {:trigger c.ref[p]} :: 0 <= p < NINODE && c.ref[p] > 0 && p != ex ==>
         c.inum[p] < |T| && T[c.inum[p]].typ != 0
  }

  /** One more reference to slot `p`, or the free slot `p` taken for inode `i`. */
  function Taken(c: ICache, p: nat, i: nat): ICache
    requires p < |c.ref| && p < |c.inum| && p < |c.valid|
  {
    if c.ref[p] > 0 then c.(ref := c.ref[p := c.ref[p] + 1])
    else c.(inum := c.inum[p := i], ref := c.ref[p := 1], valid := c.valid[p := false])
  }

  /** iget's effect: slot `q` now also stands for one more reference to inode `j`. */
  ghost predicate Got(c: ICache, refs: seq<nat>, c': ICache, refs': seq<nat>, q: nat, j: nat) {
    && |c.inum| == |c.ref| == |c.valid| == |c.din| == NINODE && q < NINODE && 1 <= j < |refs|
    && c' == Taken(c, q, j) && c'.inum[q] == j && c'.ref[q] > 0
    && refs' == refs[j := refs[j] + 1]
  }

  lemma TakenOk(c: ICache, T: seq<Dinode>, refs: seq<nat>, p: nat, i: nat)
    requires CacheOk(c, T) && Refs(c, refs) && Typed(c, T) && |refs| == |T| && p < NINODE && 1 <= i < |T|
             && T[i].typ != 0
    requires if c.ref[p] > 0 then c.inum[p] == i else forall q :: 0 <= q < NINODE && c.ref[q] > 0 ==> c.inum[q] != i
    ensures CacheOk(Taken(c, p, i), T) && Refs(Taken(c, p, i), refs[i := refs[i] + 1]) && Typed(Taken(c, p, i), T)
  {
    hide Refs;
    TakenRefs(c, T, refs, p, i);
  }

  lemma Alone(c: ICache, T: seq<Dinode>, p: nat, q: nat)
    requires CacheOk(c, T) && p < NINODE && q < NINODE && p != q && c.ref[p] > 0 && c.ref[q] > 0
    ensures c.inum[p] != c.inum[q]
  {
  }

  lemma TakenRefs(c: ICache, T: seq<Dinode>, refs: seq<nat>, p: nat, i: nat)
    requires CacheOk(c, T) && Refs(c, refs) && |refs| == |T| && p < NINODE && 1 <= i < |T|
    requires if c.ref[p] > 0 then c.inum[p] == i else forall q :: 0 <= q < NINODE && c.ref[q] > 0 ==> c.inum[q] != i
    ensures Refs(Taken(c, p, i), refs[i := refs[i] + 1])
  {
    hide CacheOk;
    var c', r' := Taken(c, p, i), refs[i := refs[i] + 1];
    assert c.ref[p] == 0 ==> refs[i] == 0;
    forall q | 0 <= q < NINODE && c'.ref[q] > 0 ensures c'.inum[q] < |r'| && r'[c'.inum[q]] == c'.ref[q] {
      if q != p && c.ref[p] > 0 { Alone(c, T, p, q); }
    }
    forall j | 0 <= j < |r'| && r'[j] > 0 ensures exists q :: 0 <= q < NINODE && c'.ref[q] > 0 && c'.inum[q] == j {
      if j == i {
        assert c'.ref[p] > 0 && c'.inum[p] == j;
      } else {
        var q :| 0 <= q < NINODE && c.ref[q] > 0 && c.inum[q] == j;
        assert c'.ref[q] > 0 && c'.inum[q] == j;
      }
    }
  }

  /** The slot after iput: one reference less, and unloaded if the inode was freed. */
  function Dropped(c: ICache, p: nat): ICache
    requires p < |c.ref| && p < |c.valid| && p < |c.din| && c.ref[p] > 0
  {
    c.(ref := c.ref[p := c.ref[p] - 1],
       valid := c.valid[p := c.valid[p] && !(c.ref[p] == 1 && c.din[p].nlink == 0)])
  }

  lemma DroppedOk(c: ICache, T: seq<Dinode>, refs: seq<nat>, p: nat, ex: int := -1)
    requires CacheOk(c, T) && Refs(c, refs) && p < NINODE && c.ref[p] > 0 && Typed(c, T, ex)
    ensures |c.inum| == |c.ref| == |c.valid| == |c.din| == NINODE && c.inum[p] < |refs| && refs[c.inum[p]] > 0
    ensures CacheOk(Dropped(c, p), T) && Refs(Dropped(c, p), refs[c.inum[p] := refs[c.inum[p]] - 1])
            && Typed(Dropped(c, p), T, ex)
    ensures ex == p && c.ref[p] == 1 ==> Typed(Dropped(c, p), T)
  {
    hide Refs;
    DroppedRefs(c, T, refs, p);
  }

  lemma DroppedRefs(c: ICache, T: seq<Dinode>, refs: seq<nat>, p: nat)
    requires CacheOk(c, T) && Refs(c, refs) && p < NINODE && c.ref[p] > 0
    ensures |c.inum| == |c.valid| == |c.din| == NINODE && c.inum[p] < |refs| && refs[c.inum[p]] > 0
    ensures Refs(Dropped(c, p), refs[c.inum[p] := refs[c.inum[p]] - 1])
  {
    hide CacheOk;
    var c', i := Dropped(c, p), c.inum[p];
    var r' := refs[i := refs[i] - 1];
    forall q | 0 <= q < NINODE && c'.ref[q] > 0 ensures c'.inum[q] < |r'| && r'[c'.inum[q]] == c'.ref[q] {
      assert c.ref[q] > 0;
      if q != p { Alone(c, T, p, q); }
    }
    forall j | 0 <= j < |r'| && r'[j] > 0 ensures exists q :: 0 <= q < NINODE && c'.ref[q] > 0 && c'.inum[q] == j {
      var q :| 0 <= q < NINODE && c.ref[q] > 0 && c.inum[q] == j;
      assert c'.ref[q] > 0 && c'.inum[q] == j;
    }
  }

  /** What callers see of `c0` when the cache becomes `c`: referenced slots keep their inode,
      their references and their contents; more references may have been added. */
  ghost predicate Moved(c0: ICache, c: ICache) {
    && |c0.inum| == |c0.ref| == |c0.valid| == NINODE && |c.inum| == |c.ref| == |c.valid| == NINODE
    && forall s {:trigger c.ref[s]} :: 0 <= s < NINODE ==>
         && c0.ref[s] <= c.ref[s]
         && (c0.ref[s] > 0 ==> c.inum[s] == c0.inum[s] && (c0.valid[s] ==> c.valid[s]))
  }

  lemma MovedTaken(c0: ICache, c: ICache, q: nat, j: nat)
    requires Moved(c0, c) && q < NINODE
    ensures Moved(c0, Taken(c, q, j))
  {
  }

  lemma MovedDropped(c0: ICache, c: ICache, p: nat)
    requires Moved(c0, c) && |c.din| == NINODE && p < NINODE && c.ref[p] > c0.ref[p]
    ensures Moved(c0, Dropped(c, p))
  {
  }

  /** Exactly one more reference than before: slot `q`, on inode `i`. */
  ghost predicate OneMore(c0: ICache, refs0: seq<nat>, c: ICache, refs: seq<nat>, q: nat, i: nat) {
    && Moved(c0, c) && q < NINODE && 1 <= i < |refs0| && c.inum[q] == i
    && c.ref == c0.ref[q := c0.ref[q] + 1] && refs == refs0[i := refs0[i] + 1]
  }

  /** As many references as before. */
  ghost predicate SameRefs(c0: ICache, refs0: seq<nat>, c: ICache, refs: seq<nat>) {
    Moved(c0, c) && c.ref == c0.ref && refs == refs0
  }

  lemma OneAt(c0: ICache, refs0: seq<nat>, c: ICache, refs: seq<nat>, p: nat, i: nat)
    requires OneMore(c0, refs0, c, refs, p, i)
    ensures p < NINODE && |c.inum| == |c.ref| == |c.valid| == NINODE && c.ref[p] > 0 && c.inum[p] == i
            && 1 <= i < |refs0|
    ensures Moved(c0, c)
  {
  }

  lemma SameMoved(c0: ICache, refs0: seq<nat>, c: ICache, refs: seq<nat>)
    requires SameRefs(c0, refs0, c, refs)
    ensures Moved(c0, c)
  {
  }

  /** An open slot stays open. */
  lemma StillOpen(c0: ICache, c: ICache, T: seq<Dinode>, p: nat, i: nat)
    requires Moved(c0, c) && CacheOk(c, T) && Open(c0, p) && c0.inum[p] == i
    ensures Open(c, p) && c.inum[p] == i < |T| && c.din[p] == T[i]
  {
  }

  /** Slot `p` stays open across an iget and what follows it. */
  lemma OpenAfterGot(c: ICache, refs: seq<nat>, c1: ICache, refs1: seq<nat>, q: nat, j: nat, c2: ICache,
      refs2: seq<nat>, T: seq<Dinode>, p: nat, i: nat)
    requires Got(c, refs, c1, refs1, q, j) && SameRefs(c1, refs1, c2, refs2) && CacheOk(c2, T) && Open(c, p)
             && c.inum[p] == i
    ensures Open(c2, p) && c2.inum[p] == i < |T| && c2.din[p] == T[i]
  {
    GotOne(c, refs, c1, refs1, q, j);
    assert c1.ref[p] > 0;
    StillOpen(c1, c2, T, p, i);
  }

  lemma SameLoad(c0: ICache, refs: seq<nat>, p: nat, d: Dinode)
    requires Open(c0, p)
    ensures SameRefs(c0, refs, c0.(din := c0.din[p := d]), refs)
  {
  }

  /** iget, seen from outside. */
  lemma GotOne(c0: ICache, refs0: seq<nat>, c: ICache, refs: seq<nat>, q: nat, i: nat)
    requires Got(c0, refs0, c, refs, q, i)
    ensures OneMore(c0, refs0, c, refs, q, i)
  {
  }

  /** A second reference is taken, then the first one dropped. */
  lemma HandOver(c0: ICache, refs0: seq<nat>, c: ICache, refs: seq<nat>, p: nat, i: nat, c1: ICache, refs1: seq<nat>,
      q: nat, j: nat)
    requires OneMore(c0, refs0, c, refs, p, i) && Got(c, refs, c1, refs1, q, j)
    ensures |c1.ref| == |c1.inum| == |c1.valid| == |c1.din| == NINODE && p < NINODE
    ensures c1.ref[p] > 0 && c1.inum[p] == i < |refs1| && refs1[i] > 0
    ensures OneMore(c0, refs0, Dropped(c1, p), refs1[i := refs1[i] - 1], q, j)
  {
    MovedTaken(c0, c, q, j);
    MovedDropped(c0, c1, p);
    assert Dropped(c1, p).ref == c0.ref[q := c0.ref[q] + 1];
    assert refs1[i := refs1[i] - 1] == refs0[j := refs0[j] + 1];
  }

  /** The one extra reference is dropped again. */
  lemma GiveBack(c0: ICache, refs0: seq<nat>, c: ICache, refs: seq<nat>, p: nat, i: nat)
    requires OneMore(c0, refs0, c, refs, p, i) && |c.din| == NINODE
    ensures refs[i] > 0 && SameRefs(c0, refs0, Dropped(c, p), refs[i := refs[i] - 1])
  {
    MovedDropped(c0, c, p);
    assert Dropped(c, p).ref == c0.ref;
    assert refs[i := refs[i] - 1] == refs0;
  }

  ghost function Inc(s: seq<nat>, k: nat): seq<nat> {
    if k < |s| then s[k := s[k] + 1] else s
  }

  /** Exactly two more references than before: slot `p`, on inode `i`, and slot `q`, on `j`. */
  ghost predicate TwoMore(c0: ICache, refs0: seq<nat>, c: ICache, refs: seq<nat>, p: nat, i: nat, q: nat, j: nat) {
    && Moved(c0, c) && p < NINODE && q < NINODE && 1 <= i < |refs0| && 1 <= j < |refs0|
    && c.inum[p] == i && c.inum[q] == j
    && c.ref == Inc(Inc(c0.ref, p), q) && refs == Inc(Inc(refs0, i), j)
  }

  lemma TwoGot(c0: ICache, refs0: seq<nat>, c: ICache, refs: seq<nat>, p: nat, i: nat, c1: ICache, refs1: seq<nat>,
      q: nat, j: nat)
    requires OneMore(c0, refs0, c, refs, p, i) && Got(c, refs, c1, refs1, q, j)
    ensures TwoMore(c0, refs0, c1, refs1, p, i, q, j)
  {
    MovedTaken(c0, c, q, j);
  }

  lemma TwoSwap(c0: ICache, refs0: seq<nat>, c: ICache, refs: seq<nat>, p: nat, i: nat, q: nat, j: nat)
    requires TwoMore(c0, refs0, c, refs, p, i, q, j)
    ensures TwoMore(c0, refs0, c, refs, q, j, p, i)
  {
    assert Inc(Inc(c0.ref, p), q) == Inc(Inc(c0.ref, q), p);
    assert Inc(Inc(refs0, i), j) == Inc(Inc(refs0, j), i);
  }

  lemma TwoSame(c0: ICache, refs0: seq<nat>, c: ICache, refs: seq<nat>, p: nat, i: nat, q: nat, j: nat, c1: ICache,
      refs1: seq<nat>)
    requires TwoMore(c0, refs0, c, refs, p, i, q, j) && SameRefs(c, refs, c1, refs1)
    ensures TwoMore(c0, refs0, c1, refs1, p, i, q, j)
  {
    assert c1.ref[p] == c.ref[p] > 0 && c1.ref[q] == c.ref[q] > 0;
  }

  lemma TwoAt(c0: ICache, refs0: seq<nat>, c: ICache, refs: seq<nat>, p: nat, i: nat, q: nat, j: nat)
    requires TwoMore(c0, refs0, c, refs, p, i, q, j)
    ensures p < NINODE && q < NINODE && |c.inum| == |c.ref| == |c.valid| == NINODE && c.ref[p] > 0 && c.ref[q] > 0
    ensures c.inum[p] == i && c.inum[q] == j && 1 <= i < |refs0| && 1 <= j < |refs0| && Moved(c0, c)
  {
  }

  lemma TwoDrop(c0: ICache, refs0: seq<nat>, c: ICache, refs: seq<nat>, p: nat, i: nat, q: nat, j: nat)
    requires TwoMore(c0, refs0, c, refs, p, i, q, j) && |c.din| == NINODE
    ensures refs[i] > 0 && OneMore(c0, refs0, Dropped(c, p), refs[i := refs[i] - 1], q, j)
  {
    MovedDropped(c0, c, p);
    assert Dropped(c, p).ref == c0.ref[q := c0.ref[q] + 1];
    assert refs[i := refs[i] - 1] == refs0[j := refs0[j] + 1];
  }

  /** ilock adds and drops nothing. */
  lemma SameIlock(c: ICache, refs: seq<nat>, q: nat, d: Dinode)
    requires |c.inum| == |c.ref| == |c.valid| == |c.din| == NINODE && q < NINODE
    ensures SameRefs(c, refs, c.(valid := c.valid[q := true], din := c.din[q := d]), refs)
  {
  }

  lemma OneDin(c0: ICache, refs0: seq<nat>, c: ICache, refs: seq<nat>, q: nat, i: nat, d: Dinode)
    requires OneMore(c0, refs0, c, refs, q, i) && |c.din| == NINODE
    ensures OneMore(c0, refs0, c.(din := c.din[q := d]), refs, q, i)
  {
  }

  /** The only reference to an inode that had none before. */
  lemma SoleRef(c0: ICache, refs0: seq<nat>, c: ICache, refs: seq<nat>, q: nat, i: nat)
    requires OneMore(c0, refs0, c, refs, q, i) && Refs(c, refs)
    ensures c.ref[q] == refs0[i] + 1
  {
    assert c.ref[q] > 0;
  }

  /** ilock, seen from outside. */
  lemma LoadedMore(c0: ICache, refs0: seq<nat>, c: ICache, refs: seq<nat>, q: nat, i: nat, d: Dinode)
    requires OneMore(c0, refs0, c, refs, q, i) && |c.din| == NINODE
    ensures OneMore(c0, refs0, c.(valid := c.valid[q := true], din := c.din[q := d]), refs, q, i)
  {
  }

  /** One inode changes, but stays allocated: the counts do not change. */
  lemma Recount(c: ICache, T: seq<Dinode>, refs: seq<nat>, p: nat, i: nat, d: Dinode)
    requires Refs(c, refs) && Typed(c, T) && p < NINODE && i < |T| && d.typ != 0
    ensures Refs(c.(din := c.din[p := d]), refs) && Typed(c.(din := c.din[p := d]), T[i := d])
  {
    hide Refs;
    RecountRefs(c, refs, p, d);
  }

  lemma RecountRefs(c: ICache, refs: seq<nat>, p: nat, d: Dinode)
    requires Refs(c, refs) && p < NINODE
    ensures |c.din| == NINODE && Refs(c.(din := c.din[p := d]), refs)
  {
    var c' := c.(din := c.din[p := d]);
    forall j | 0 <= j < |refs| && refs[j] > 0 ensures exists q :: 0 <= q < NINODE && c'.ref[q] > 0 && c'.inum[q] == j {
      var q :| 0 <= q < NINODE && c.ref[q] > 0 && c.inum[q] == j;
      assert c'.ref[q] > 0 && c'.inum[q] == j;
    }
  }

  /** iget would panic: every slot is in use. */
  ghost predicate Busy(c: ICache) {
    forall s :: 0 <= s < |c.ref| ==> c.ref[s] > 0
  }

  /** Fewer than two slots are free. */
  ghost predicate Tight(c: ICache) {
    forall s, t :: 0 <= s < t < |c.ref| ==> c.ref[s] > 0 || c.ref[t] > 0
  }

  /** When one reference more fills every slot, at most one was free. */
  lemma TightOne(c0: ICache, refs0: seq<nat>, c: ICache, refs: seq<nat>, p: nat, i: nat)
    requires OneMore(c0, refs0, c, refs, p, i) && Busy(c)
    ensures Tight(c0)
  {
    forall s, t | 0 <= s < t < |c0.ref| ensures c0.ref[s] > 0 || c0.ref[t] > 0 {
      assert c.ref[s] > 0 && c.ref[t] > 0;
    }
  }

  /** A free inode, which nobody references, is claimed. */
  lemma CacheFresh(c: ICache, T: seq<Dinode>, refs: seq<nat>, j: nat, d: Dinode)
    requires CacheOk(c, T) && Typed(c, T) && j < |T| && T[j].typ == 0 && d.typ != 0
    ensures CacheOk(c, T[j := d]) && Typed(c, T[j := d])
  {
  }

  /** The inode of slot `p` is marked free while the slot still holds it. */
  lemma TypedBut(c: ICache, T: seq<Dinode>, refs: seq<nat>, p: nat, i: nat, d: Dinode)
    requires CacheOk(c, T) && Refs(c, refs) && Typed(c, T) && Open(c, p) && c.inum[p] == i && i < |T|
    ensures var c' := c.(din := c.din[p := d]);
            Refs(c', refs) && Typed(c', T[i := d], p)
  {
    RecountRefs(c, refs, p, d);
    hide Refs;
    forall q | 0 <= q < NINODE && c.ref[q] > 0 && q != p ensures c.inum[q] != i {
      Alone(c, T, p, q);
    }
  }

  lemma TypedAny(c: ICache, T: seq<Dinode>, ex: int)
    requires Typed(c, T)
    ensures Typed(c, T, ex)
  {
  }

  lemma CacheShape(c: ICache, T: seq<Dinode>)
    requires CacheOk(c, T)
    ensures |c.inum| == |c.ref| == |c.valid| == |c.din| == NINODE
  {
  }

  lemma HasSlot(c: ICache, refs: seq<nat>, i: nat)
    requires Refs(c, refs) && i < |refs| && refs[i] > 0
    ensures |c.inum| == |c.ref| == NINODE && exists q :: 0 <= q < NINODE && c.ref[q] > 0 && c.inum[q] == i
  {
  }

  lemma InodeLoaded(c: ICache, T: seq<Dinode>, refs: seq<nat>, p: nat)
    requires CacheOk(c, T) && Refs(c, refs) && Typed(c, T) && p < NINODE && c.ref[p] > 0
    ensures c.inum[p] < |T|
    ensures var c' := c.(valid := c.valid[p := true], din := c.din[p := T[c.inum[p]]]);
            CacheOk(c', T) && Refs(c', refs) && Typed(c', T)
  {
  }

  /** Slot `p` is referenced and loaded. */
  ghost predicate Open(c: ICache, p: nat) {
    && |c.inum| == |c.ref| == |c.valid| == |c.din| == NINODE
    && p < NINODE && c.ref[p] > 0 && c.valid[p]
  }

  /** The blocks that a write to inode `i` logs beside the data blocks: the bitmap, the inode's
      block and the indirect root (0 standing for one not yet allocated). */
  ghost function Foot(sb: Superblock, S: set<nat>, i: nat, d: Dinode): set<nat>
    requires |d.addrs| == NDIRECT + 1
  {
    S + {sb.bmapstart, IBlock(sb, i), d.addrs[ROOT]}
  }

  lemma CardSub(a: set<nat>, b: set<nat>)
    requires a <= b
    ensures |a| <= |b|
  {
    assert b == a + (b - a);
    assert |a + (b - a)| == |a| + |b - a|;
  }

  lemma CardAdd(a: set<nat>, x: nat)
    ensures |a + {x}| <= |a| + 1
    ensures x !in a ==> |a + {x}| == |a| + 1
  {
    if x in a { assert a + {x} == a; }
  }

  lemma FootCard(sb: Superblock, S: set<nat>, i: nat, d: Dinode)
    requires |d.addrs| == NDIRECT + 1
    ensures |Foot(sb, S, i, d)| <= |S| + 3
  {
    CardAdd(S, sb.bmapstart);
    CardAdd(S + {sb.bmapstart}, IBlock(sb, i));
    CardAdd(S + {sb.bmapstart} + {IBlock(sb, i)}, d.addrs[ROOT]);
    assert Foot(sb, S, i, d) == S + {sb.bmapstart} + {IBlock(sb, i)} + {d.addrs[ROOT]};
  }

  /** A block inside a footprint of at most LOGOP blocks may be logged. */
  lemma Room(S: set<nat>, F: set<nat>, x: nat)
    requires S <= F && x in F && |F| <= LOGOP
    ensures x in S || |S| < LOGOP
  {
    if x !in S {
      CardSub(S + {x}, F);
      CardAdd(S, x);
    }
  }

  /** Allocating the indirect root does not enlarge the footprint. */
  lemma FootRoot(sb: Superblock, S: set<nat>, S': set<nat>, i: nat, d: Dinode, d': Dinode)
    requires |d.addrs| == |d'.addrs| == NDIRECT + 1 && SbOk(sb) && 0 !in S && d.addrs[ROOT] == 0
    requires S' == S + {sb.bmapstart, d'.addrs[ROOT]}
    ensures |Foot(sb, S', i, d')| <= |Foot(sb, S, i, d)|
  {
    var A := S + {sb.bmapstart, IBlock(sb, i)};
    assert Foot(sb, S, i, d) == A + {0};
    assert Foot(sb, S', i, d') == A + {d'.addrs[ROOT]};
    CardAdd(A, 0);
    CardAdd(A, d'.addrs[ROOT]);
  }

  lemma CacheSet(c: ICache, T: seq<Dinode>, p: nat, d: Dinode)
    requires CacheOk(c, T) && Open(c, p)
    ensures c.inum[p] < |T| && CacheOk(c.(din := c.din[p := d]), T[c.inum[p] := d])
  {
  }

  /** The field-by-field load of ilock. */
  function LoadInode(bp: Block, i: nat): Dinode {
    DecDinode(bp[IOff(i)..IOff(i) + DISIZE])
  }

  lemma LoadIs(sb: Superblock, V: seq<Block>, i: nat)
    requires IBlock(sb, i) < |V|
    ensures LoadInode(V[IBlock(sb, i)], i) == DiskInode(sb, V, i)
  {
  }

  lemma InodeRange(sb: Superblock, i: nat)
    requires SbOk(sb) && i < sb.ninodes
    ensures sb.inodestart <= IBlock(sb, i) < sb.bmapstart
  {
  }

  class Fs {
    const log: Log
    const sb: Superblock
    ghost const super: Block              // the superblock, which no operation writes
    var ic: ICache
    ghost var T: seq<Dinode>              // the inodes as the kernel sees them
    ghost var owner: map<nat, Slot>       // which pointer owns a data block
    ghost var refs: seq<nat>              // references handed out, by inode number
    ghost var names: map<nat, Slot>       // the directory entry that names a file

    /** fsinit after init_log: an empty inode cache. The ghost arguments describe the disk. */
    constructor (log: Log, sb: Superblock, ghost T: seq<Dinode>, ghost owner: map<nat, Slot>,
        ghost names: map<nat, Slot>)
      requires log.Valid() && log.T() == Txn([], []) && log.G() == Geo(sb)
      requires |log.Img()| > 1 && Consistent(sb, log.Img(), T, owner, -1) && Tidy(log.Img(), T, names)
      ensures this.log == log && this.sb == sb && Good() && Idle() && V() == log.Img() && this.T == T && super == V()[1]
      ensures forall p :: 0 <= p < NINODE ==> ic.ref[p] == 0
    {
      hide Bits, Owned, Zeroed, DiskInode, Tidy, Mask, Reserved;
      this.log, this.sb, this.super := log, sb, log.Img()[1];
      ic := ICache(Zeroes(NINODE), Zeroes(NINODE), seq(NINODE, _ => false), seq(NINODE, _ => Blank(0)));
      this.T, this.owner, this.names := T, owner, names;
      refs := Zeroes(|T|);
    }

    /** The block image inside the open transaction. */
    ghost function V(): seq<Block>
      reads log, log.bc
    {
      log.Img()
    }

    ghost predicate Up()
      reads log, log.bc, log.bc.disk
    {
      log.Valid() && log.G() == Geo(sb) && SbOk(sb) && 1 < sb.size <= |V()| && V()[1] == super
    }

    /** What the one open operation has logged. */
    ghost function S(): set<nat>
      reads log
    {
      if |log.ops| == 1 then log.ops[0] else {}
    }

    ghost predicate InOp()
      reads log
    {
      |log.ops| == 1
    }

    lemma UpFacts()
      requires Up()
      ensures SbOk(sb) && |V()| > 1 && V()[1] == super
              && sb.inodestart < sb.bmapstart < DataStart(sb) <= sb.size <= |V()| && sb.size <= BPB
    {
    }

    method Read(b: nat) returns (data: Block)
      requires Up() && sb.inodestart <= b < |V()|
      modifies log.bc
      ensures Up() && V() == old(V()) && data == V()[b]
    {
      NotInLog(sb, b);
      data := log.ReadBlock(b);
    }

    method Write(b: nat, off: nat, src: seq<byte>)
      requires Up() && InOp() && sb.inodestart <= b < |V()| && off + |src| <= BSIZE
      requires b in S() || |S()| < LOGOP
      modifies log, log.bc
      ensures Up() && InOp() && S() == old(S()) + {b}
      ensures V() == old(V())[b := Overlay(old(V())[b], off, src)]
    {
      hide Reserved, Mask, Loggable;
      NotInLog(sb, b);
      log.UpdateBlock(b, off, src, 0);
    }

    /** The rest of balloc once a free bit is found: mark it and zero the block. */
    method Take(bp: Block, b: nat)
      requires Up() && InOp() && bp == V()[sb.bmapstart] && DataStart(sb) <= b < sb.size
      requires |S() + {sb.bmapstart}| < LOGOP
      modifies log, log.bc
      ensures Up() && InOp() && V() == Allocated(sb, old(V()), b) && S() == old(S()) + {sb.bmapstart, b}
    {
      hide Up, Used, Overlay, BlockWithBit;
      UpFacts();
      OverlayBit(bp, b, true);
      OverlayAll(V()[b], Zeros(BSIZE));
      ghost var s0 := S();
      Write(b / BPB + sb.bmapstart, b / 8, [ByteWith(bp[b / 8], b % 8, true)]);
      Write(b, 0, Zeros(BSIZE));
      assert S() == s0 + {sb.bmapstart, b};
    }

    /** balloc: the first free block, marked used and zeroed; a panic exactly when none is free. */
    method Balloc(ghost used: set<nat>) returns (ok: bool, addr: nat)
      requires Up() && InOp() && Bits(sb, V()[sb.bmapstart], used)
      requires |S() + {sb.bmapstart}| < LOGOP
      modifies log, log.bc
      ensures Up() && InOp()
      ensures ok <==> !NoFree(sb, old(V()))
      ensures ok ==> && addr < sb.size && !Used(old(V())[sb.bmapstart], addr)
                     && (forall c :: 0 <= c < addr ==> Used(old(V())[sb.bmapstart], c))
                     && V() == Allocated(sb, old(V()), addr) && S() == old(S()) + {sb.bmapstart, addr}
      ensures !ok ==> V() == old(V())
    {
      hide Used, Bits, Up, Allocated;
      UpFacts();
      ghost var m := V()[sb.bmapstart];
      var b := 0;
      while b < sb.size
        invariant Up() && InOp() && V() == old(V()) && S() == old(S()) && (b == 0 || b == BPB)
        invariant forall c :: 0 <= c < b && c < sb.size ==> Used(m, c)
        decreases sb.size - b
      {
        var bp := Read(b / BPB + sb.bmapstart);
        var bi := 0;
        while bi < BPB && b + bi < sb.size
          invariant 0 <= bi <= BPB && Up() && InOp() && V() == old(V()) && S() == old(S())
          invariant forall c :: 0 <= c < bi && c < sb.size ==> Used(m, c)
        {
          if !Used(bp, bi) {
            BitsSet(sb, m, used, bi);
            Take(bp, b + bi);
            return true, b + bi;
          }
          bi := bi + 1;
        }
        b := b + BPB;
      }
      return false, 0;
    }

    /** bfree. Its panic "freeing free block" is not reached for a block in use. */
    method Bfree(b: nat, ghost used: set<nat>)
      requires Up() && InOp() && Bits(sb, V()[sb.bmapstart], used) && b in used
      requires sb.bmapstart in S() || |S()| < LOGOP
      modifies log, log.bc
      ensures Up() && InOp() && S() == old(S()) + {sb.bmapstart}
      ensures V() == old(V())[sb.bmapstart := V()[sb.bmapstart]]
      ensures Bits(sb, V()[sb.bmapstart], used - {b})
    {
      hide Used, Bits, ByteWith, Overlay;
      BitFreed(sb, V()[sb.bmapstart], used, b);
      var bp := Read(b / BPB + sb.bmapstart);
      var bi := b % BPB;
      assert Used(bp, bi);   // panic("freeing free block") is not reached
      Write(b / BPB + sb.bmapstart, bi / 8, [ByteWith(bp[bi / 8], bi % 8, false)]);
    }

    /** The invariant of the file system in memory; on disk, inode `ex` may lag behind. */
    ghost predicate Ready(ex: int)
      reads this`ic, this`T, this`owner, log, log.bc, log.bc.disk
    {
      Up() && Consistent(sb, V(), T, owner, ex) && CacheOk(ic, T)
    }

    /** Slot `p` is open on inode `i`. */
    ghost predicate At(p: nat, i: nat)
      reads this`ic, this`T
    {
      Open(ic, p) && ic.inum[p] == i < |T| && ic.din[p] == T[i] && |T[i].addrs| == NDIRECT + 1
    }

    /** The data blocks in use, and the indirect block that inode `i` does not have yet. */
    ghost function Blocks(i: nat): nat
      reads this`T, this`owner
    {
      |owner| + if i < |T| && |T[i].addrs| == NDIRECT + 1 && T[i].addrs[ROOT] == 0 then 1 else 0
    }

    /** Fewer than `n` data blocks are free. */
    ghost predicate Short(n: nat)
      reads this`owner
    {
      |owner| + n > DataBlocks(sb)
    }

    lemma ShortIs(n: nat)
      requires Ready(-1)
      ensures |FreeBlocks(sb, V())| + |owner| == DataBlocks(sb)
      ensures Short(n) <==> |FreeBlocks(sb, V())| < n
    {
      hide Owned, Table, Zeroed, Used, Bits;
      UpFacts();
      FreeCount(sb, V(), owner.Keys);
    }

    /** balloc panics when every data block is in use. */
    lemma AllInUse(i: nat)
      requires Ready(i) && NoFree(sb, V())
      ensures |owner| >= DataBlocks(sb)
    {
      hide Owned, Table, Zeroed, Used, Bits;
      UpFacts();
      FreeCount(sb, V(), owner.Keys);
      assert FreeBlocks(sb, V()) == {};
    }

    /** `ip->addrs[s] = balloc()`. */
    method AllocDirect(p: nat, s: nat, ghost i: nat) returns (ok: bool, addr: nat)
      requires At(p, i) && Ready(i) && InOp() && T[i].typ != 0
      requires s <= ROOT && T[i].addrs[s] == 0 && |S() + {sb.bmapstart}| < LOGOP
      modifies this`ic, this`T, this`owner, log, log.bc
      ensures Up() && InOp()
      ensures !ok ==> NoFree(sb, V()) && old(Blocks(i)) >= DataBlocks(sb)
      ensures ok ==> Blocks(i) == old(Blocks(i)) + if s == ROOT then 0 else 1
      ensures ok ==> && At(p, i) && Ready(i) && SameFiles(old(V()), old(T), V(), T)
                     && S() == old(S()) + {sb.bmapstart, addr} && DataStart(sb) <= addr < sb.size
                     && T == old(T)[i := old(T[i]).(addrs := old(T[i].addrs)[s := addr])]
                     && ic == old(ic).(din := old(ic.din)[p := T[i]])
    {
      hide Up, Owned, Table, Bits, Zeroed, Used, SameFiles, Allocated;
      UpFacts();
      if NoFree(sb, V()) { AllInUse(i); }
      ok, addr := Balloc(owner.Keys);
      if ok {
        GrowDirect(sb, old(V()), T, owner, i, s, addr);
        ghost var d := T[i].(addrs := T[i].addrs[s := addr]);
        CacheSet(ic, T, p, d);
        ic := ic.(din := ic.din[p := ic.din[p].(addrs := ic.din[p].addrs[s := addr])]);
        T, owner := T[i := d], owner[addr := Slot(i, s)];
      }
    }

    /** `a[e] = balloc()` in the indirect block, then log_write of that block. */
    method AllocEntry(p: nat, e: nat, ghost i: nat) returns (ok: bool, addr: nat)
      requires At(p, i) && Ready(i) && InOp() && T[i].typ != 0
      requires e < NINDIRECT && T[i].addrs[ROOT] != 0 && Ptr(V(), T[i], ROOT + 1 + e) == 0
      requires |Foot(sb, S(), i, T[i])| < LOGOP
      modifies this`owner, log, log.bc
      ensures Up() && InOp()
      ensures !ok ==> NoFree(sb, V()) && old(Blocks(i)) >= DataBlocks(sb)
      ensures ok ==> Blocks(i) == old(Blocks(i)) + 1
      ensures ok ==> && Ready(i) && SameFiles(old(V()), old(T), V(), T)
                     && S() == old(S()) + {sb.bmapstart, addr, T[i].addrs[ROOT]}
                     && DataStart(sb) <= addr < sb.size && Ptr(V(), T[i], ROOT + 1 + e) == addr
    {
      hide Up, Owned, Table, Bits, Zeroed, Used, SameFiles, Ptr, Dec;
      UpFacts();
      ghost var F, r := Foot(sb, S(), i, T[i]), T[i].addrs[ROOT];
      CardSub(S() + {sb.bmapstart}, F);
      if NoFree(sb, V()) { AllInUse(i); }
      ok, addr := Balloc(owner.Keys);
      if ok {
        GrowEntry(sb, old(V()), T, owner, i, e, addr, r);
        CardAdd(F, addr);
        Room(S(), F + {addr}, r);
        Write(ic.din[p].addrs[ROOT], 4 * e, Enc(addr, 4));
        owner := owner[addr := Slot(i, ROOT + 1 + e)];
      }
    }

    /** The indirect half of bmap, the root `r` being there. */
    method BmapEntry(p: nat, e: nat, r: nat, create: bool, ghost i: nat) returns (ok: bool, addr: nat)
      requires At(p, i) && Ready(i) && 0 !in S() && e < NINDIRECT && 0 != r == T[i].addrs[ROOT]
      requires create ==> InOp() && T[i].typ != 0 && |Foot(sb, S(), i, T[i])| < LOGOP
      modifies this`owner, log, log.bc
      ensures Up()
      ensures !ok ==> create && NoFree(sb, V()) && old(Blocks(i)) >= DataBlocks(sb)
      ensures ok ==> Blocks(i) <= old(Blocks(i)) + 1
      ensures ok ==> Ready(i) && SameFiles(old(V()), old(T), V(), T) && addr == Ptr(V(), T[i], ROOT + 1 + e)
      ensures ok && create ==> && addr != 0 && InOp() && 0 !in S() && old(S()) <= S()
                               && |Foot(sb, S(), i, T[i]) + {addr}| <= |old(Foot(sb, S(), i, T[i]))| + 1
      ensures !create ==> ok && V() == old(V()) && log.ops == old(log.ops) && owner == old(owner)
    {
      hide Up, Owned, Table, Bits, Zeroed, Used, SameFiles, Get, Blocks, NoFree, IBlock;
      UpFacts();
      SameRefl(sb, V(), T, owner);
      PtrRange(sb, V(), T, owner, i, ROOT);
      ghost var F := Foot(sb, S(), i, T[i]);
      var bp := Read(r);
      addr := Word(bp, e);
      ok := true;
      if addr == 0 && create {
        ok, addr := AllocEntry(p, e, i);
        if ok { assert Foot(sb, S(), i, T[i]) + {addr} == F + {addr}; }
      }
      CardAdd(F, addr);
    }

    /** bmap makes sure of pointer `s` in the inode itself. */
    method BmapInode(p: nat, s: nat, create: bool, ghost i: nat) returns (ok: bool, addr: nat)
      requires At(p, i) && Ready(i) && 0 !in S() && s <= ROOT
      requires create ==> InOp() && T[i].typ != 0 && |Foot(sb, S(), i, T[i])| < LOGOP
      modifies this`ic, this`T, this`owner, log, log.bc
      ensures Up()
      ensures !ok ==> create && NoFree(sb, V()) && old(Blocks(i)) >= DataBlocks(sb)
      ensures ok ==> Blocks(i) <= old(Blocks(i)) + if s == ROOT then 0 else 1
      ensures ok ==> && At(p, i) && Ready(i) && SameFiles(old(V()), old(T), V(), T)
                     && addr == T[i].addrs[s] && T == old(T)[i := old(T[i]).(addrs := T[i].addrs)]
                     && ic == old(ic).(din := old(ic.din)[p := T[i]])
      ensures ok && create ==> && addr != 0 && InOp() && 0 !in S() && old(S()) <= S()
                               && |Foot(sb, S(), i, T[i]) + {addr}| <= |old(Foot(sb, S(), i, T[i]))| + 1
                               && (s == ROOT ==> |Foot(sb, S(), i, T[i])| <= |old(Foot(sb, S(), i, T[i]))|)
      ensures !create ==> ok && V() == old(V()) && T == old(T) && ic == old(ic) && log.ops == old(log.ops)
                          && owner == old(owner)
    {
      hide Up, Owned, Table, Bits, Zeroed, Used, SameFiles, CacheOk, IBlock, Blocks, NoFree;
      UpFacts();
      SameRefl(sb, V(), T, owner);
      ghost var F := Foot(sb, S(), i, T[i]);
      CardSub(S() + {sb.bmapstart}, F);
      assert T == T[i := T[i].(addrs := T[i].addrs)] && ic == ic.(din := ic.din[p := T[i]]);
      addr := ic.din[p].addrs[s];
      ok := true;
      if addr == 0 && create {
        ok, addr := AllocDirect(p, s, i);
        if !ok { return; }
        if s == ROOT {
          FootRoot(sb, old(S()), S(), i, old(T[i]), T[i]);
          assert Foot(sb, S(), i, T[i]) + {addr} == Foot(sb, S(), i, T[i]);
        } else {
          assert Foot(sb, S(), i, T[i]) + {addr} == F + {addr};
        }
      }
      CardAdd(F, addr);
    }

    /** bmap: the block of file block `bn`, allocated on demand if `create`. Allocation reads
        no differently than the hole it fills. */
    method Bmap(p: nat, bn: nat, create: bool, ghost i: nat) returns (ok: bool, addr: nat)
      requires At(p, i) && Ready(i) && 0 !in S()
      requires create ==> InOp() && T[i].typ != 0 && |Foot(sb, S(), i, T[i])| < LOGOP
      modifies this`ic, this`T, this`owner, log, log.bc
      ensures Up()
      ensures !ok ==> bn >= MAXFILE || (create && NoFree(sb, V()) && old(Blocks(i)) >= DataBlocks(sb))
      ensures ok ==> Blocks(i) <= old(Blocks(i)) + 1
      ensures ok ==> && bn < MAXFILE && At(p, i) && Ready(i) && SameFiles(old(V()), old(T), V(), T)
                     && addr == Ptr(V(), T[i], SlotOf(bn))
                     && T == old(T)[i := old(T[i]).(addrs := T[i].addrs)]
                     && ic == old(ic).(din := old(ic.din)[p := T[i]])
      ensures ok && create ==> && addr != 0 && InOp() && 0 !in S() && old(S()) <= S()
                               && |Foot(sb, S(), i, T[i]) + {addr}| <= |old(Foot(sb, S(), i, T[i]))| + 1
      ensures !create ==> (ok <==> bn < MAXFILE) && V() == old(V()) && T == old(T) && ic == old(ic)
                          && log.ops == old(log.ops) && owner == old(owner)
    {
      hide Up, Consistent, SameFiles, Get, CacheOk, Foot, Blocks;
      if bn < NDIRECT {
        ok, addr := BmapInode(p, bn, create, i);
        return;
      }
      var e := bn - NDIRECT;
      if e < NINDIRECT {
        ok, addr := BmapInode(p, ROOT, create, i);
        if !ok || addr == 0 { return; }
        ghost var V1, T1 := V(), T;
        ok, addr := BmapEntry(p, e, addr, create, i);
        if ok { SameTrans(old(V()), old(T), V1, T1, V(), T); }
        return;
      }
      return false, 0;
    }

    /** iupdate. */
    method Iupdate(p: nat, ghost i: nat)
      requires At(p, i) && Ready(i) && InOp()
      requires IBlock(sb, i) in S() || |S()| < LOGOP
      modifies log, log.bc
      ensures Ready(-1) && InOp() && S() == old(S()) + {IBlock(sb, i)} && SameFiles(old(V()), T, V(), T)
    {
      hide Up, Consistent, CacheOk, SameFiles, EncDinode;
      UpFacts();
      Updated(sb, V(), T, owner, i);
      Write(IBlock(sb, ic.inum[p]), IOff(ic.inum[p]), EncDinode(ic.din[p]));
    }

    /** One round of readi: `m` bytes from the block of offset `off`. */
    method ReadPart(p: nat, off: nat, m: nat, ghost i: nat) returns (bytes: seq<byte>)
      requires At(p, i) && Ready(i) && 0 !in S() && off + m <= T[i].size <= MAXBYTES && m <= BSIZE - off % BSIZE
               && m > 0
      modifies this`ic, this`T, this`owner, log, log.bc
      ensures Up() && V() == old(V()) && T == old(T) && ic == old(ic) && log.ops == old(log.ops) && owner == old(owner)
      ensures bytes == Content(V(), T[i])[off..off + m]
    {
      hide Up, Consistent, CacheOk, SameFiles, Ptr, FileByte, Content;
      var ok, addr := Bmap(p, off / BSIZE, false, i);
      assert ok;
      UpFacts();
      AddrRange(i, SlotOf(off / BSIZE));
      ReadChunk(V(), T[i], off, m, addr);
      if addr == 0 {
        bytes := Zeros(m);
      } else {
        var bp := Read(addr);
        bytes := bp[off % BSIZE..off % BSIZE + m];
      }
    }

    /** readi: the slice of the file's bytes, clipped at its end; -1 past the end or when the
        32-bit sum of offset and length wraps. */
    method Readi(p: nat, off0: nat, n0: nat, ghost i: nat) returns (r: int, dst: seq<byte>)
      requires At(p, i) && Ready(i) && 0 !in S() && off0 < U32 && n0 < U32 && T[i].size <= MAXBYTES
      modifies this`ic, this`T, this`owner, log, log.bc
      ensures Up() && V() == old(V()) && T == old(T) && ic == old(ic) && log.ops == old(log.ops) && owner == old(owner)
      ensures r == -1 <==> off0 > T[i].size || off0 + n0 >= U32
      ensures r != -1 ==> && r == (if off0 + n0 > T[i].size then T[i].size - off0 else n0)
                          && off0 + r <= T[i].size && dst == Content(V(), T[i])[off0..off0 + r]
    {
      hide Up, Consistent, CacheOk, Content;
      var off, n := off0, n0;
      dst := [];
      if off > ic.din[p].size || (off + n) % U32 < off { return -1, []; }
      if (off + n) % U32 > ic.din[p].size { n := ic.din[p].size - off; }
      var tot := 0;
      ghost var c := Content(V(), T[i]);
      while tot < n
        invariant 0 <= tot <= n && off == off0 + tot && At(p, i)
        invariant Up() && V() == old(V()) && T == old(T) && ic == old(ic) && log.ops == old(log.ops)
                  && owner == old(owner)
        invariant dst == c[off0..off0 + tot]
      {
        var m := BSIZE - off % BSIZE;
        if m > n - tot { m := n - tot; }
        var bytes := ReadPart(p, off, m, i);
        SliceJoin(c, off0, off0 + tot, off0 + tot + m);
        dst := dst + bytes;
        tot, off := tot + m, off + m;
      }
      return n, dst;
    }

    /** One round of writei: `m` bytes of `src` into the block of offset `off + tot`. */
    method WritePart(p: nat, off: nat, src: seq<byte>, tot: nat, m: nat, ghost i: nat, ghost V0: seq<Block>,
        ghost T0: seq<Dinode>)
      returns (ok: bool, ghost addr: nat)
      requires At(p, i) && Ready(i) && InOp() && 0 !in S() && T[i].typ != 0 && |Foot(sb, S(), i, T[i])| < LOGOP
      requires tot + m <= |src| && m <= BSIZE - (off + tot) % BSIZE && Wrote(V0, T0, V(), T, i, off, src, tot)
      modifies this`ic, this`T, this`owner, log, log.bc
      ensures Up()
      ensures !ok ==> (off + tot) / BSIZE >= MAXFILE || (NoFree(sb, V()) && old(Blocks(i)) >= DataBlocks(sb))
      ensures ok ==> Blocks(i) <= old(Blocks(i)) + 1
      ensures ok ==> && At(p, i) && Ready(i) && InOp() && 0 !in S() && Wrote(V0, T0, V(), T, i, off, src, tot + m)
                     && T == old(T)[i := old(T[i]).(addrs := T[i].addrs)] && (off + tot) / BSIZE < MAXFILE
                     && ic == old(ic).(din := old(ic.din)[p := T[i]])
                     && |Foot(sb, S(), i, T[i])| <= |old(Foot(sb, S(), i, T[i]))| + 1
    {
      hide Up, Consistent, CacheOk, SameFiles, Ptr, Wrote, Blocks;
      var bn := (off + tot) / BSIZE;
      var a;
      ok, a := Bmap(p, bn, true, i);
      addr := a;
      if !ok { return; }
      ghost var F := Foot(sb, S(), i, T[i]);
      WroteSame(V0, T0, old(V()), old(T), V(), T, i, off, src, tot);
      WriteChunk(sb, V0, T0, V(), T, owner, i, off, src, tot, m, a);
      Room(S(), F + {a}, a);
      AddrRange(i, SlotOf(bn));
      Write(a, (off + tot) % BSIZE, src[tot..tot + m]);
      assert Foot(sb, S(), i, T[i]) == F + {a};
    }

    lemma StartWrite(i: nat, off: nat, src: seq<byte>)
      requires Ready(-1) && i < |T|
      ensures Ready(i) && Wrote(V(), T, V(), T, i, off, src, 0)
    {
      hide Owned, Bits, Zeroed, DiskInode;
      TableWeaken(sb, V(), T, owner, i);
      SameRefl(sb, V(), T, owner);
      WroteNothing(V(), T, V(), T, i, off, src);
    }

    /** The end of writei: grow the size if need be, then iupdate. */
    method SetSize(p: nat, off: nat, ghost i: nat)
      requires At(p, i) && Ready(i) && InOp() && 0 !in S() && T[i].typ != 0 && off <= MAXBYTES && T[i].size <= MAXBYTES
      requires |Foot(sb, S(), i, T[i])| <= LOGOP
      modifies this`ic, this`T, log, log.bc
      ensures At(p, i) && Ready(-1) && InOp() && 0 !in S() && SameFiles(old(V()), old(T), V(), T)
      ensures T == old(T)[i := old(T[i]).(size := if off > old(T[i].size) then off else old(T[i].size))]
              && Blocks(i) == old(Blocks(i))
      ensures ic == old(ic).(din := old(ic.din)[p := T[i]]) && Foot(sb, S(), i, T[i]) == old(Foot(sb, S(), i, T[i]))
    {
      hide Up, Table, Owned, Bits, Zeroed, SameFiles, EncDinode, Used;
      UpFacts();
      OwnedRange(sb, V(), T, owner);
      ghost var d := T[i].(size := if off > T[i].size then off else T[i].size);
      MetaChange(sb, V(), T, owner, i, d);
      CacheSet(ic, T, p, d);
      if off > ic.din[p].size { ic := ic.(din := ic.din[p := ic.din[p].(size := off)]); }
      assert ic == old(ic).(din := old(ic.din)[p := d]);
      T := T[i := d];
      ghost var T1 := T;
      Room(S(), Foot(sb, S(), i, T[i]), IBlock(sb, i));
      Iupdate(p, i);
      SameTrans(old(V()), old(T), old(V()), T1, V(), T);
    }

    /** writei: the file is spliced with `src`, every other file stays; -1, with no change,
        past the end or when the 32-bit sum wraps. A panic means no space or a file too long;
        one free block for each block written and one for the indirect block are enough. */
    method Writei(p: nat, src: seq<byte>, off0: nat, ghost i: nat) returns (ok: bool, r: int)
      requires At(p, i) && Ready(-1) && InOp() && 0 !in S() && T[i].typ != 0 && T[i].size <= MAXBYTES
      requires off0 < U32 && |src| < U32 && |Foot(sb, S(), i, T[i])| + Span(off0, |src|) <= LOGOP
      modifies this`ic, this`T, this`owner, log, log.bc
      ensures Up()
      ensures !ok ==> off0 + |src| > MAXBYTES
                      || (NoFree(sb, V()) && old(Blocks(i)) + Span(off0, |src|) > DataBlocks(sb))
      ensures ok ==> Blocks(i) <= old(Blocks(i)) + Span(off0, |src|)
      ensures ok ==> && At(p, i) && Ready(-1) && InOp() && 0 !in S()
                     && (r == -1 <==> off0 > old(T[i].size) || off0 + |src| >= U32)
                     && ic == old(ic).(din := old(ic.din)[p := T[i]])
                     && T == old(T)[i := old(T[i]).(addrs := T[i].addrs, size := T[i].size)]
                     && |Foot(sb, S(), i, T[i])| <= |old(Foot(sb, S(), i, T[i]))| + Span(off0, |src|)
      ensures ok && r == -1 ==> V() == old(V()) && T == old(T) && S() == old(S())
      ensures ok && r != -1 ==>
                && r == |src| && off0 <= old(T[i].size)
                && T[i].size == (if off0 + |src| > old(T[i].size) then off0 + |src| else old(T[i].size)) <= MAXBYTES
                && Wrote(old(V()), old(T), V(), T, i, off0, src, |src|)
    {
      hide Up, Consistent, CacheOk, SameFiles, Wrote, Span, Foot, Blocks;
      var off, n := off0, |src|;
      var size := ic.din[p].size;
      assert T == T[i := T[i].(addrs := T[i].addrs, size := T[i].size)] && ic == ic.(din := ic.din[p := T[i]]);
      if off > ic.din[p].size || (off + n) % U32 < off { return true, -1; }
      StartWrite(i, off0, src);
      ghost var V0, T0, ic0 := V(), T, ic;
      var tot := 0;
      while tot < n
        invariant 0 <= tot <= n && off == off0 + tot <= MAXBYTES && At(p, i) && Ready(i) && InOp() && 0 !in S()
        invariant T[i].typ == T0[i].typ && ic.din[p].size == size
        invariant T == T0[i := T0[i].(addrs := T[i].addrs)] && ic == ic0.(din := ic0.din[p := T[i]])
        invariant Wrote(V0, T0, V(), T, i, off0, src, tot)
        invariant tot == 0 ==> V() == V0 && T == T0 && ic == ic0 && Ready(-1)
        invariant |Foot(sb, S(), i, T[i])| + Span(off0 + tot, n - tot) <= |old(Foot(sb, S(), i, T[i]))| + Span(off0, n)
        invariant Blocks(i) + Span(off0 + tot, n - tot) <= old(Blocks(i)) + Span(off0, n)
      {
        var m := BSIZE - off % BSIZE;
        if m > n - tot { m := n - tot; }
        SpanStep(off, n - tot, m);
        ghost var a;
        ok, a := WritePart(p, off0, src, tot, m, i, V0, T0);
        if !ok { return false, 0; }
        tot, off := tot + m, off + m;
      }
      if n > 0 {
        ghost var V1, T1 := V(), T;
        SetSize(p, off, i);
        WroteSame(V0, T0, V1, T1, V(), T, i, off0, src, n);
      }
      return true, n;
    }

    /** Part of itrunc: `if(b) bfree(b)` for the block of pointer `s`, of which `freed` have
        been freed already. `V0` is the image when itrunc started. */
    method FreePtr(b: nat, s: nat, ghost i: nat, ghost V0: seq<Block>, ghost freed: set<nat>, ghost a: nat,
        ghost e: nat)
      returns (ghost f: set<nat>)
      requires Truncating(i, V0, freed, a, e) && s < NPTR && b == Ptr(V0, T[i], s)
      requires (s == a <= ROOT) || (a == NDIRECT && s == e > ROOT)
      modifies log, log.bc
      ensures Truncating(i, V0, f, if s == a then a + 1 else a, if s == a then e else e + 1)
      ensures S() == old(S()) || S() == old(S()) + {sb.bmapstart}
    {
      hide Up, Owned, Bits, Used, Ptr, FreedSoFar, Zeroed, Table;
      UpFacts();
      FreeNext(sb, V0, T, owner, i, freed, a, e, s);
      f := freed;
      if b != 0 {
        Room(S(), S() + {sb.bmapstart, IBlock(sb, i)}, sb.bmapstart);
        Bfree(b, owner.Keys - freed);
        f := freed + {b};
        assert owner.Keys - freed - {b} == owner.Keys - f;
        assert S() + {sb.bmapstart, IBlock(sb, i)} == old(S()) + {sb.bmapstart, IBlock(sb, i)};
      }
    }

    /** While itrunc runs, only bitmap bits of freed blocks have changed. */
    ghost predicate Truncating(i: nat, V0: seq<Block>, freed: set<nat>, a: nat, e: nat)
      reads this`T, this`owner, log, log.bc, log.bc.disk
    {
      && Up() && InOp() && |S() + {sb.bmapstart, IBlock(sb, i)}| <= LOGOP
      && |V()| == |V0| && V() == V0[sb.bmapstart := V()[sb.bmapstart]]
      && Table(sb, V0, T, i) && Owned(sb, V0, T, owner) && Zeroed(T) && i < |T| && |T[i].addrs| == NDIRECT + 1
      && Bits(sb, V()[sb.bmapstart], owner.Keys - freed) && FreedSoFar(owner, i, freed, a, e)
    }

    lemma StartTrunc(i: nat)
      requires Ready(i) && InOp() && |S() + {sb.bmapstart, IBlock(sb, i)}| <= LOGOP && i < |T|
               && |T[i].addrs| == NDIRECT + 1
      ensures Truncating(i, V(), {}, 0, ROOT + 1)
    {
      hide Owned, Bits, FreedSoFar, Zeroed, Table;
      UpFacts();
      FreedNone(owner, i);
      assert owner.Keys - {} == owner.Keys;
    }

    lemma NoRootTrunc(i: nat, V0: seq<Block>, freed: set<nat>)
      requires Truncating(i, V0, freed, NDIRECT, ROOT + 1) && T[i].addrs[ROOT] == 0
      ensures Truncating(i, V0, freed, ROOT + 1, NPTR)
    {
      hide Up, Owned, Bits, FreedSoFar, Zeroed, Table;
      FreedNoRoot(sb, V0, T, owner, i, freed);
    }

    /** The loops of itrunc. */
    method FreeAll(p: nat, ghost i: nat) returns (ghost freed: set<nat>)
      requires At(p, i) && Ready(i) && InOp() && |S() + {sb.bmapstart, IBlock(sb, i)}| <= LOGOP
      modifies this`ic, log, log.bc
      ensures Truncating(i, old(V()), freed, ROOT + 1, NPTR) && S() <= old(S()) + {sb.bmapstart}
      ensures Open(ic, p) && NoAddrs(ic.din[p])
      ensures ic == old(ic).(din := old(ic.din)[p := old(T[i]).(addrs := ic.din[p].addrs)])
    {
      hide Up, Consistent, Get, CacheOk, IBlock, Truncating;
      ghost var V0, d0, c0 := V(), T[i], ic;
      freed := {};
      StartTrunc(i);
      for k := 0 to NDIRECT
        invariant Truncating(i, V0, freed, k, ROOT + 1)
        invariant Open(ic, p) && ic == c0.(din := c0.din[p := ic.din[p]]) && ic.din[p] == d0.(addrs := ic.din[p].addrs)
        invariant |ic.din[p].addrs| == NDIRECT + 1
        invariant forall m :: 0 <= m <= NDIRECT ==> ic.din[p].addrs[m] == if m < k then 0 else d0.addrs[m]
        invariant S() <= old(S()) + {sb.bmapstart}
      {
        freed := FreePtr(ic.din[p].addrs[k], k, i, V0, freed, k, ROOT + 1);
        ic := ic.(din := ic.din[p := ic.din[p].(addrs := ic.din[p].addrs[k := 0])]);
      }
      if ic.din[p].addrs[ROOT] == 0 {
        NoRootTrunc(i, V0, freed);
        return;
      }
      freed := FreeIndirect(ic.din[p].addrs[ROOT], i, V0, freed);
      ic := ic.(din := ic.din[p := ic.din[p].(addrs := ic.din[p].addrs[ROOT := 0])]);
    }

    /** The blocks behind the indirect block `r`, then `r` itself. */
    method FreeIndirect(r: nat, ghost i: nat, ghost V0: seq<Block>, ghost freed0: set<nat>)
      returns (ghost freed: set<nat>)
      requires Truncating(i, V0, freed0, NDIRECT, ROOT + 1) && 0 != r == T[i].addrs[ROOT]
      modifies log, log.bc
      ensures Truncating(i, V0, freed, ROOT + 1, NPTR) && S() <= old(S()) + {sb.bmapstart}
    {
      hide Up, Owned, Bits, Used, Get, Zeroed, Table, FreedSoFar;
      UpFacts();
      PtrRange(sb, V0, T, owner, i, ROOT);
      freed := freed0;
      var bp := Read(r);
      for j := 0 to NINDIRECT
        invariant Truncating(i, V0, freed, NDIRECT, ROOT + 1 + j)
        invariant S() <= old(S()) + {sb.bmapstart}
      {
        freed := FreePtr(Word(bp, j), ROOT + 1 + j, i, V0, freed, NDIRECT, ROOT + 1 + j);
      }
      freed := FreePtr(r, ROOT, i, V0, freed, NDIRECT, NPTR);
    }

    /** itrunc: the file becomes empty, its blocks free; no other file changes. */
    method Itrunc(p: nat, ghost i: nat)
      requires At(p, i) && Ready(i) && InOp() && |S() + {sb.bmapstart, IBlock(sb, i)}| <= LOGOP
      modifies this`ic, this`T, this`owner, log, log.bc
      ensures At(p, i) && Ready(-1) && InOp() && OthersSame(old(V()), old(T), V(), T, i)
      ensures T == old(T)[i := old(T[i]).(addrs := T[i].addrs, size := 0)] && NoAddrs(T[i])
      ensures ic == old(ic).(din := old(ic.din)[p := T[i]]) && owner == OwnerWithout(old(owner), i)
      ensures IBlock(sb, i) in S() && S() <= old(S()) + {sb.bmapstart, IBlock(sb, i)}
    {
      hide Up, Owned, Bits, Zeroed, Table, FreedSoFar, OthersSame, SameFiles, OwnerWithout, IBlock, CacheOk;
      OwnedRange(sb, V(), T, owner);
      ghost var V0, T0, owner0 := V(), T, owner;
      ghost var freed := FreeAll(p, i);
      ic := ic.(din := ic.din[p := ic.din[p].(size := 0)]);
      ghost var d := T[i].(addrs := ic.din[p].addrs, size := 0);
      CacheSet(old(ic), T, p, d);
      assert ic == old(ic).(din := old(ic.din)[p := d]);
      UpFacts();
      Truncated(sb, V0, V(), T, owner, i, freed, d);
      T, owner := T[i := d], OwnerWithout(owner, i);
      ghost var V1 := V();
      Room(S(), S() + {sb.bmapstart, IBlock(sb, i)}, IBlock(sb, i));
      Iupdate(p, i);
      OthersTrans(V0, T0, V1, T, V(), T, i);
    }

    lemma AddrRange(i: nat, s: nat)
      requires Ready(i) && i < |T| && |T[i].addrs| == NDIRECT + 1 && s < NPTR
      ensures Ptr(V(), T[i], s) == 0 || sb.inodestart <= Ptr(V(), T[i], s) < |V()|
    {
      hide Owned, Bits;
      UpFacts();
      if Ptr(V(), T[i], s) != 0 { PtrRange(sb, V(), T, owner, i, s); }
    }

    /** The references are accounted for; slot `ex` may hold an inode that has been freed. */
    ghost predicate Counted(ex: int := -1)
      reads this`ic, this`T, this`refs
    {
      CacheOk(ic, T) && Refs(ic, refs) && Typed(ic, T, ex) && |refs| == |T|
    }

    /** iget: one reference to inode `i`; a panic exactly when it needs a slot and none is free. */
    method Iget(i: nat) returns (ok: bool, p: nat)
      requires Counted() && 1 <= i < |T| && T[i].typ != 0
      modifies this`ic, this`refs
      ensures Counted()
      ensures !ok ==> ic == old(ic) && refs == old(refs) && refs[i] == 0 && Busy(ic)
      ensures ok ==> Got(old(ic), old(refs), ic, refs, p, i)
    {
      hide CacheOk, Refs, Typed;
      CacheShape(ic, T);
      if refs[i] > 0 { HasSlot(ic, refs, i); }
      var empty := NINODE;
      p := 0;
      while p < NINODE
        invariant 0 <= p <= NINODE && 0 <= empty <= NINODE
        invariant forall q :: 0 <= q < p && ic.ref[q] > 0 ==> ic.inum[q] != i
        invariant empty < NINODE ==> ic.ref[empty] == 0
        invariant empty == NINODE ==> forall q :: 0 <= q < p ==> ic.ref[q] > 0
      {
        if ic.ref[p] > 0 && ic.inum[p] == i {
          TakenOk(ic, T, refs, p, i);
          ic := ic.(ref := ic.ref[p := ic.ref[p] + 1]);
          refs := refs[i := refs[i] + 1];
          return true, p;
        }
        if empty == NINODE && ic.ref[p] == 0 { empty := p; }
        p := p + 1;
      }
      if empty == NINODE { return false, 0; }
      p := empty;
      TakenOk(ic, T, refs, p, i);
      ic := ic.(inum := ic.inum[p := i], ref := ic.ref[p := 1], valid := ic.valid[p := false]);
      refs := refs[i := refs[i] + 1];
      return true, p;
    }

    /** ilock: the inode is loaded. The panic "no type" is not reached: a referenced inode is
        allocated. */
    method Ilock(p: nat, ghost i: nat)
      requires Ready(-1) && Counted() && p < NINODE && ic.ref[p] > 0 && ic.inum[p] == i < |T|
      modifies this`ic, log.bc
      ensures Ready(-1) && V() == old(V()) && Counted() && At(p, i) && T[i].typ != 0
      ensures ic == old(ic).(valid := old(ic.valid)[p := true], din := old(ic.din)[p := T[i]])
    {
      hide Up, Owned, Bits, DiskInode, Zeroed, CacheOk, Refs, Typed;
      UpFacts();
      InodeLoaded(ic, T, refs, p);
      LoadedAt(p, i);
      if !ic.valid[p] {
        InodeRange(sb, i);
        assert T[i] == DiskInode(sb, V(), i);
        var bp := Read(IBlock(sb, ic.inum[p]));
        ic := ic.(valid := ic.valid[p := true], din := ic.din[p := LoadInode(bp, ic.inum[p])]);
        assert ic.din[p] == T[i] by { LoadIs(sb, V(), i); }
        assert ic.din[p].typ != 0;   // panic("ilock: no type") is not reached
      }
      assert ic.valid == old(ic.valid)[p := true] && ic.din == old(ic.din)[p := T[i]];
    }

    lemma LoadedAt(p: nat, i: nat)
      requires Ready(-1) && Counted() && p < NINODE && ic.ref[p] > 0 && ic.inum[p] == i < |T|
      ensures |ic.inum| == |ic.ref| == |ic.valid| == |ic.din| == NINODE && |T[i].addrs| == NDIRECT + 1
      ensures T[i].typ != 0 && (ic.valid[p] ==> ic.din[p] == T[i])
    {
      hide Bits, Zeroed, Ptr;
      OwnedRange(sb, V(), T, owner);
      assert WfDinode(T[i]);
    }

    /** iput drops the last reference to a loaded inode without links. */
    ghost predicate Frees(p: nat)
      reads this`ic
    {
      Open(ic, p) && ic.ref[p] == 1 && ic.din[p].nlink == 0
    }

    /** iput: one reference less. Its freeing branch, which logs the inode's block, is only
        taken for an inode that unlink has emptied and marked free. */
    method Iput(p: nat, ghost i: nat, ghost ex: int := -1)
      requires Counted(ex) && p < NINODE && ic.ref[p] > 0 && ic.inum[p] == i
      requires Frees(p) ==> At(p, i) && Ready(-1) && InOp() && T[i].typ == 0 && (IBlock(sb, i) in S() || |S()| < LOGOP)
      modifies this`ic, this`refs, if Frees(p) then {log, log.bc} else {}
      ensures Counted(ex) && ic == Dropped(old(ic), p) && (ex == p && old(ic.ref[p]) == 1 ==> Counted())
      ensures refs == old(refs)[i := old(refs[i]) - 1] && old(refs[i]) > 0
      ensures old(Frees(p)) ==>
              Ready(-1) && InOp() && S() == old(S()) + {IBlock(sb, i)} && SameFiles(old(V()), T, V(), T)
    {
      hide Up, Consistent, CacheOk, Refs, Typed, SameFiles;
      DroppedOk(ic, T, refs, p, ex);
      if ic.ref[p] == 1 && ic.valid[p] && ic.din[p].nlink == 0 {
        FreeInode(p, i);
      }
      ic := ic.(ref := ic.ref[p := ic.ref[p] - 1]);
      refs := refs[i := refs[i] - 1];
      assert ic == Dropped(old(ic), p);
    }

    /** The freeing branch of iput. */
    method FreeInode(p: nat, ghost i: nat)
      requires At(p, i) && Ready(-1) && InOp() && T[i].typ == 0 && (IBlock(sb, i) in S() || |S()| < LOGOP)
      modifies this`ic, log, log.bc
      ensures Up() && Consistent(sb, V(), T, owner, -1) && InOp() && S() == old(S()) + {IBlock(sb, i)}
              && SameFiles(old(V()), T, V(), T)
      ensures ic == old(ic).(valid := old(ic.valid)[p := false])
    {
      hide Up, Consistent, CacheOk, SameFiles;
      ic := ic.(din := ic.din[p := ic.din[p].(typ := 0)]);
      assert ic.din[p] == old(ic).din[p] && ic.din == old(ic).din && ic == old(ic);
      TableWeaken(sb, V(), T, owner, i);
      Iupdate(p, i);
      ic := ic.(valid := ic.valid[p := false]);
    }

    /** The state between system calls. Only when a file is unlinked while it is open can a slot
        `ex` come to hold an inode that has been freed. */
    ghost predicate Good(ex: int := -1)
      reads this, log, log.bc, log.bc.disk
    {
      Ready(-1) && Counted(ex) && Tidy(V(), T, names)
    }

    lemma DirAt(p: nat, i: nat)
      requires Good() && At(p, i) && T[i].typ == T_DIR
      ensures Ready(i) && IsDir(T[i]) && DirOk(Content(V(), T[i]), |T|) && |T| <= U16
    {
      hide DirOk, Content, DiskInode, Ptr, Bits, Zeroed, Up, Named;
      UpFacts();
      OwnedRange(sb, V(), T, owner);
      assert WfDinode(T[i]);
      TableWeaken(sb, V(), T, owner, i);
    }

    /** dirlookup: the directory's map, with a reference to the inode found; NINODE stands for
        the null result. The only panic is iget's. */
    method Dirlookup(p: nat, name: Name, ghost i: nat) returns (ok: bool, q: nat, off: nat, ghost j: nat)
      requires Good() && At(p, i) && T[i].typ == T_DIR && 0 !in S()
      modifies this`ic, this`T, this`owner, this`refs, log, log.bc
      ensures Up() && V() == old(V()) && T == old(T) && owner == old(owner) && log.ops == old(log.ops) && Good()
      ensures T[i].size <= MAXBYTES
      ensures !ok ==> Busy(ic) && ic == old(ic) && Key(name) in DirMap(Content(V(), T[i]))
      ensures ok && q == NINODE ==> ic == old(ic) && refs == old(refs) && Key(name) !in DirMap(Content(V(), T[i]))
      ensures ok && q != NINODE ==> FoundAt(Content(V(), T[i]), name, j, off) && Got(old(ic), old(refs), ic, refs, q, j)
    {
      hide Up, Consistent, Dirs, Content, DirMap, CacheOk, Refs, Typed, Inum, NameOf, Key, Linked, Named;
      DirAt(p, i);
      ghost var c := Content(V(), T[i]);
      off, j := 0, 0;
      while off < ic.din[p].size
        invariant off % DESIZE == 0 && off <= |c|
        invariant Up() && V() == old(V()) && T == old(T) && owner == old(owner) && log.ops == old(log.ops)
        invariant ic == old(ic) && refs == old(refs) && At(p, i)
        invariant forall k :: 0 <= k < off / DESIZE && Inum(c, k) != 0 ==> Key(NameOf(c, k)) != Key(name)
        decreases ic.din[p].size - off
      {
        ghost var k := off / DESIZE;
        EntryRead(c, k);
        var r, de := Readi(p, off, DESIZE, i);
        assert r == DESIZE;          // panic("dirlookup read") is not reached
        var inum := Get(de, 0, 2);
        if inum != 0 {
          var same := MatchName(name, de[2..]);
          if same {
            Hit(c, |T|, k);
            NamedAt(V(), T, names, i, k);
            ok, q := Iget(inum);
            return ok, q, off, inum;
          }
        }
        off := off + DESIZE;
      }
      Miss(c, Key(name));
      return true, NINODE, 0, 0;
    }

    /** Loaded slots hold linked inodes, so dropping them frees nothing. */
    lemma Keeps(p: nat)
      requires Counted() && Linked(T) && p < NINODE && ic.ref[p] > 0
      ensures |ic.inum| == |ic.ref| == |ic.valid| == |ic.din| == NINODE
      ensures (ic.valid[p] ==> ic.din[p].nlink != 0) && !Frees(p)
    {
      hide Refs;
    }

    /** iunlockput, of a linked inode. */
    method Iunlockput(p: nat, ghost i: nat)
      requires Good() && p < NINODE && ic.ref[p] > 0 && ic.inum[p] == i
      modifies this`ic, this`refs
      ensures Good() && ic == Dropped(old(ic), p)
      ensures refs == old(refs)[i := old(refs[i]) - 1] && old(refs[i]) > 0
    {
      hide Up, Consistent, Tidy, CacheOk, Refs, Typed, Dropped;
      KeepsGood(p);
      Iput(p, i);
    }

    /** Dropping the one extra reference. */
    method PutBack(p: nat, ghost i: nat, ghost c0: ICache, ghost refs0: seq<nat>)
      requires Good() && OneMore(c0, refs0, ic, refs, p, i)
      modifies this`ic, this`refs
      ensures Good() && SameRefs(c0, refs0, ic, refs)
    {
      hide Up, Consistent, Tidy, CacheOk, Refs, Typed, Dropped, SameRefs;
      KeepsGood(p);
      GiveBack(c0, refs0, ic, refs, p, i);
      Iunlockput(p, i);
    }

    lemma KeepsGood(p: nat)
      requires Good() && p < NINODE && ic.ref[p] > 0
      ensures |ic.inum| == |ic.ref| == |ic.valid| == |ic.din| == NINODE
      ensures (ic.valid[p] ==> ic.din[p].nlink != 0) && !Frees(p)
    {
      hide Ready, Dirs, Named, Counted;
      assert Linked(T);
      Keeps(p);
    }

    lemma GoodAny(ex: int)
      requires Good()
      ensures Good(ex)
    {
      hide Up, Consistent, Tidy, CacheOk, Refs;
    }

    lemma CacheLengths(ex: int)
      requires Counted(ex)
      ensures |ic.inum| == |ic.ref| == |ic.valid| == |ic.din| == NINODE
    {
    }

    /** Of the loaded inodes, iput frees exactly those without links that nobody else refers to. */
    lemma FreesIs(p: nat, ex: int)
      requires Counted(ex) && p < NINODE && ic.ref[p] > 0 && ic.valid[p]
      ensures ic.inum[p] < |T| && (Frees(p) <==> ic.ref[p] == 1 && T[ic.inum[p]].nlink == 0)
    {
      hide Refs, Typed;
    }

    /** One directory on a path: ilock, the type check, and dirlookup of `name`, dropping the
        directory; or stop at the directory itself. */
    method Descend(p: nat, name: Name, stop: bool, ghost i: nat, ghost c0: ICache, ghost refs0: seq<nat>)
      returns (ok: bool, q: nat, ghost j: nat)
      requires Good() && 0 !in S() && OneMore(c0, refs0, ic, refs, p, i) && |refs0| == |T|
      modifies this`ic, this`T, this`owner, this`refs, log, log.bc
      ensures Up() && V() == old(V()) && T == old(T) && owner == old(owner) && log.ops == old(log.ops) && Good()
      ensures !ok ==> Busy(ic) && Tight(c0)
      ensures ok && q == NINODE ==>
              SameRefs(c0, refs0, ic, refs) && (if stop then !IsDir(T[i]) else Next(V(), T, i, Key(name)) == 0)
      ensures ok && q != NINODE ==> OneMore(c0, refs0, ic, refs, q, j)
      ensures ok && q != NINODE && stop ==> q == p && j == i && At(q, i) && IsDir(T[i])
      ensures ok && q != NINODE && !stop ==> j == Next(V(), T, i, Key(name))
    {
      hide Up, Consistent, Tidy, Content, DirMap, CacheOk, Refs, Typed, OneMore, SameRefs, Got, Dropped;
      OneAt(c0, refs0, ic, refs, p, i);
      CacheShape(ic, T);
      Ilock(p, i);
      LoadedMore(c0, refs0, old(ic), refs, p, i, T[i]);
      if ic.din[p].typ != T_DIR {
        PutBack(p, i, c0, refs0);
        return true, NINODE, 0;
      }
      DirAt(p, i);
      if stop { return true, p, i; }
      ghost var c1, refs1 := ic, refs;
      var off;
      ok, q, off, j := Dirlookup(p, name, i);
      if !ok {
        TightOne(c0, refs0, c1, refs1, p, i);
        return;
      }
      if q == NINODE {
        PutBack(p, i, c0, refs0);
        return true, NINODE, 0;
      }
      HandOver(c0, refs0, c1, refs1, p, i, ic, refs, q, j);
      KeepsGood(p);
      Iunlockput(p, i);
    }

    lemma RootAt()
      requires Good()
      ensures 1 <= ROOTINO < |T| && T[ROOTINO].typ != 0 && Counted() && |refs| == |T|
    {
      hide Up, Consistent, Dirs, CacheOk, Refs, Typed;
    }

    /** namex: the fold of directory lookup over the components of the path, or over all but
        the last, whose name is then returned with the loaded directory that may hold it.
        NINODE stands for the null result; the only panic is iget's, and two free slots are
        enough. */
    method Namex(path: seq<byte>, parent: bool, name0: Name) returns (ok: bool, q: nat, name: Name, ghost i: nat)
      requires Good() && 0 !in S() && IsPath(path)
      modifies this`ic, this`T, this`owner, this`refs, log, log.bc
      ensures Up() && V() == old(V()) && T == old(T) && owner == old(owner) && log.ops == old(log.ops) && Good()
      ensures !ok ==> Busy(ic) && Tight(old(ic))
      ensures ok && q == NINODE ==> SameRefs(old(ic), old(refs), ic, refs)
                                    && (if parent then NameIParent(V(), T, path) else NameI(V(), T, path)) == 0
      ensures ok && q != NINODE ==> OneMore(old(ic), old(refs), ic, refs, q, i)
                                    && i == if parent then NameIParent(V(), T, path) else NameI(V(), T, path)
      ensures ok && q != NINODE && parent ==>
              At(q, i) && IsDir(T[i]) && Comps(path) != [] && Key(name) == Comps(path)[|Comps(path)| - 1]
    {
      hide Up, Consistent, Tidy, CacheOk, Refs, Typed, OneMore, SameRefs, Got, Walk, WalkParent, Comps, Key,
           NameIParent, Next;
      ghost var c0, refs0, comps := ic, refs, Comps(path);
      RootAt();
      ParentIs(V(), T, path);
      assert path[0..] == path;
      ok, q := Iget(ROOTINO);        // for absolute and relative paths alike
      name, i := name0, ROOTINO;
      if !ok { return; }
      GotOne(c0, refs0, ic, refs, q, i);
      var more, pos;
      more, pos, name := SkipElem(path, 0, name);
      ghost var rest := comps;
      while more
        invariant ok && Good() && OneMore(c0, refs0, ic, refs, q, i)
        invariant Up() && V() == old(V()) && T == old(T) && owner == old(owner) && log.ops == old(log.ops)
        invariant 0 < i < |T| && more == (rest != [])
        invariant more ==> pos <= |path| && rest == [Key(name)] + Comps(path[pos..])
                           && (pos == |path| <==> Comps(path[pos..]) == [])
        invariant !parent ==> Walk(V(), T, ROOTINO, comps) == Walk(V(), T, i, rest)
        invariant parent ==> WalkParent(V(), T, ROOTINO, comps) == WalkParent(V(), T, i, rest)
        invariant rest != [] ==> comps != [] && rest[|rest| - 1] == comps[|comps| - 1]
        decreases if more then |path| - pos + 1 else 0
      {
        rest := Comps(path[pos..]);
        WalkStep(V(), T, i, Key(name), rest);
        var stop := parent && pos == |path|;
        ghost var key := Key(name);
        ghost var j;
        ok, q, j := Descend(q, name, stop, i, c0, refs0);
        i := j;
        if !ok || q == NINODE || stop { return; }
        OneAt(c0, refs0, ic, refs, q, i);
        more, pos, name := SkipElem(path, pos, name);
      }
      WalkEnd(V(), T, i);
      OneAt(c0, refs0, ic, refs, q, i);
      if parent {
        PutBack(q, i, c0, refs0);
        return true, NINODE, name, 0;
      }
    }

    /** The entry that dirlink writes, at the dead entry or the end of the directory it found. */
    method AddEntry(p: nat, name: Name, inum: nat, k: nat, ghost i: nat) returns (ok: bool)
      requires Good() && At(p, i) && IsDir(T[i]) && InOp() && 0 !in S() && |Foot(sb, S(), i, T[i])| < LOGOP
      requires 0 < inum < |T| && T[inum].typ != 0 && T[inum].typ != T_DIR && Nameless(V(), T, inum)
      requires var c := Content(V(), T[i]);
               && k <= Slots(c) && (k < Slots(c) ==> Inum(c, k) == 0) && Key(name) !in DirMap(c)
               && forall j :: 0 <= j < k ==> Inum(c, j) != 0
      modifies this`ic, this`T, this`owner, this`names, log, log.bc
      ensures Up()
      ensures !ok ==> (k == Slots(old(Content(V(), T[i]))) && old(T[i].size) + DESIZE > MAXBYTES)
                      || (NoFree(sb, V()) && old(Short(2)))
      ensures ok ==> && Good() && At(p, i) && IsDir(T[i]) && InOp() && 0 !in S()
                     && ic == old(ic).(din := old(ic.din)[p := T[i]])
                     && Enlisted(old(V()), old(T), V(), T, i, Key(name), inum)
                     && |Foot(sb, S(), i, T[i])| <= |old(Foot(sb, S(), i, T[i]))| + 1 && |owner| <= |old(owner)| + 2
    {
      hide Up, Consistent, Tidy, Content, DirMap, CacheOk, Refs, Typed, Foot, Wrote, Key, Dirent;
      DirAt(p, i);
      ghost var V0, T0, names0, c, e := V(), T, names, Content(V(), T[i]), Dirent(inum, name);
      DirWhole(c, |T|);
      SpanEntry(k);
      var r;
      ok, r := Writei(p, Dirent(inum, name), DESIZE * k, i);
      if !ok { return; }
      assert r == DESIZE;            // panic("dirlink") is not reached
      WroteContent(V0, T0, V(), T, i, DESIZE * k, e);
      Recount(old(ic), T0, refs, p, i, T[i]);
      Relinked(V0, T0, names0, i, T[i]);
      names := names0[inum := Slot(i, k)];
      TidyLink(V0, T0, V(), T, names0, i, k, inum, name);
    }

    /** The search of dirlink for a dead entry: it stops at the first, or at the end of the directory
        if all entries are live. */
    method DeadEntry(p: nat, ghost i: nat) returns (off: nat)
      requires Good() && At(p, i) && IsDir(T[i]) && 0 !in S()
      modifies this`ic, this`T, this`owner, log, log.bc
      ensures Up() && V() == old(V()) && T == old(T) && ic == old(ic) && owner == old(owner) && log.ops == old(log.ops)
              && Good()
      ensures off % DESIZE == 0 && off / DESIZE <= Slots(Content(V(), T[i]))
      ensures off / DESIZE < Slots(Content(V(), T[i])) ==> Inum(Content(V(), T[i]), off / DESIZE) == 0
      ensures forall k :: 0 <= k < off / DESIZE ==> Inum(Content(V(), T[i]), k) != 0
    {
      hide Up, Consistent, Tidy, Content, CacheOk, Refs, Typed, Inum, DirOk, Get;
      DirAt(p, i);
      ghost var c := Content(V(), T[i]);
      DirWhole(c, |T|);
      off := 0;
      while off < ic.din[p].size
        invariant off % DESIZE == 0 && off <= |c|
        invariant Up() && V() == old(V()) && T == old(T) && owner == old(owner) && log.ops == old(log.ops)
        invariant ic == old(ic) && At(p, i) && forall k :: 0 <= k < off / DESIZE ==> Inum(c, k) != 0
        decreases ic.din[p].size - off
      {
        EntryRead(c, off / DESIZE);
        var r, de := Readi(p, off, DESIZE, i);
        assert r == DESIZE;          // panic("dirlink read") is not reached
        if Get(de, 0, 2) == 0 { return; }
        off := off + DESIZE;
      }
    }

    /** The blocks that operation may come to log by writing to inode `i`, data blocks aside. */
    ghost function Cost(i: nat): nat
      reads this`T, log
    {
      if i < |T| && |T[i].addrs| == NDIRECT + 1 then |Foot(sb, S(), i, T[i])| else 0
    }

    /** dirlink: -1, and nothing changes, when the name is there; else the map gains it. */
    method Dirlink(p: nat, name: Name, inum: nat, ghost i: nat) returns (ok: bool, r: int)
      requires Good() && At(p, i) && IsDir(T[i]) && InOp() && 0 !in S() && Cost(i) < LOGOP
      requires 0 < inum < |T| && T[inum].typ != 0 && T[inum].typ != T_DIR && Nameless(V(), T, inum)
      modifies this`ic, this`T, this`owner, this`refs, this`names, log, log.bc
      ensures Up()
      ensures !ok ==> || (Busy(ic) && Key(name) in old(Listing(V(), T, i)))
                      || old(DirFull(V(), T, i)) || (NoFree(sb, V()) && old(Short(2)))
      ensures ok ==> && Good() && At(p, i) && InOp() && 0 !in S() && SameRefs(old(ic), old(refs), ic, refs)
                     && Relisted(old(V()), old(T), V(), T, i, Key(name), inum, r) && Cost(i) <= old(Cost(i)) + 1
                     && |owner| <= |old(owner)| + 2
    {
      hide Up, Consistent, Tidy, Content, DirMap, CacheOk, Refs, Typed, Foot, Key, OneMore, SameRefs, Got, Inum, Ent,
           Nameless, DirOk;
      ghost var c0, refs0 := ic, refs;
      DirAt(p, i);
      DirWhole(Content(V(), T[i]), |T|);
      var q, off;
      ghost var j;
      ok, q, off, j := Dirlookup(p, name, i);
      if !ok { return false, 0; }
      if q != NINODE {
        GotOne(c0, refs0, ic, refs, q, j);
        PutBack(q, j, c0, refs0);
        SameMoved(c0, refs0, ic, refs);
        StillOpen(c0, ic, T, p, i);
        return true, -1;
      }
      var o := DeadEntry(p, i);
      ok := AddEntry(p, name, inum, o / DESIZE, i);
      if ok { SameLoad(c0, refs0, p, T[i]); }
      return ok, 0;
    }

    /** The branch of ialloc that claims the free inode `j` and takes a reference to it. */
    method ClaimInode(j: nat, typ: nat) returns (ok: bool, q: nat)
      requires Good() && InOp() && 0 !in S() && |S()| < LOGOP && 0 < typ < U16 && typ != T_DIR
      requires 1 <= j < |T| && T[j].typ == 0 && forall m :: 1 <= m < j ==> T[m].typ != 0
      modifies this`ic, this`T, this`refs, log, log.bc
      ensures Up() && (!ok ==> Busy(ic) && ic == old(ic))
      ensures ok ==> && Ready(-1) && Counted() && InOp() && Got(old(ic), old(refs), ic, refs, q, j)
                     && Claim(old(V()), old(T), V(), T, names, j, typ) && S() == old(S()) + {IBlock(sb, j)} && 0 !in S()
    {
      hide Up, Consistent, Tidy, CacheOk, Refs, Typed, SameFiles, EncDinode, Got, Claim, IBlock;
      UpFacts();
      ghost var V0, T0 := V(), T;
      Claimed(sb, V(), T, owner, j, typ);
      Write(IBlock(sb, j), IOff(j), EncDinode(Blank(typ)));
      CacheFresh(ic, T, refs, j, Blank(typ));
      T := T[j := Blank(typ)];
      ClaimIs(V0, T0, V(), names, j, typ);
      ok, q := Iget(j);
    }

    /** ialloc: the first free inode, claimed with type `typ` and no links. A panic means that
        no inode, or no cache slot, is free. */
    method Ialloc(typ: nat) returns (ok: bool, q: nat, ghost j: nat)
      requires Good() && InOp() && 0 !in S() && |S()| < LOGOP && 0 < typ < U16 && typ != T_DIR
      modifies this`ic, this`T, this`refs, log, log.bc
      ensures Up()
      ensures !ok ==> ic == old(ic) && (Busy(ic) || forall m :: 1 <= m < |old(T)| ==> old(T)[m].typ != 0)
      ensures ok ==> && Ready(-1) && Counted() && InOp() && Got(old(ic), old(refs), ic, refs, q, j)
                     && Claim(old(V()), old(T), V(), T, names, j, typ) && S() == old(S()) + {IBlock(sb, j)} && 0 !in S()
    {
      hide Up, Consistent, Tidy, CacheOk, Refs, Typed, Got, Claim, IBlock, DiskInode;
      UpFacts();
      OnDisk(0);
      var inum := 1;
      while inum < sb.ninodes
        invariant 1 <= inum <= sb.ninodes && Good() && InOp() && S() == old(S()) && V() == old(V())
        invariant T == old(T) && ic == old(ic) && refs == old(refs)
        invariant forall m :: 1 <= m < inum ==> T[m].typ != 0
      {
        OnDisk(inum);
        var bp := Read(IBlock(sb, inum));
        if LoadInode(bp, inum).typ == 0 {
          j := inum;
          ok, q := ClaimInode(inum, typ);
          return;
        }
        inum := inum + 1;
      }
      return false, 0, 0;
    }

    /** Inode `i` as read from its block. */
    lemma OnDisk(i: nat)
      requires Ready(-1) && i < sb.ninodes
      ensures |T| == sb.ninodes && sb.inodestart <= IBlock(sb, i) < |V()| && LoadInode(V()[IBlock(sb, i)], i) == T[i]
    {
      hide Owned, Bits, DiskInode, LoadInode, Zeroed;
      UpFacts();
      InodeRange(sb, i);
      assert T[i] == DiskInode(sb, V(), i);
      LoadIs(sb, V(), i);
    }

    /** Field assignments to a loaded inode that leave its blocks and size alone, then iupdate. */
    method SetMeta(p: nat, d: Dinode, ghost i: nat)
      requires At(p, i) && Ready(-1) && InOp() && WfDinode(d) && d.addrs == ic.din[p].addrs && d.size == ic.din[p].size
      requires d.typ == 0 ==> NoAddrs(d)
      requires IBlock(sb, i) in S() || |S()| < LOGOP
      modifies this`ic, this`T, log, log.bc
      ensures At(p, i) && Ready(-1) && InOp() && S() == old(S()) + {IBlock(sb, i)}
              && SameFiles(old(V()), old(T), V(), T)
      ensures T == old(T)[i := d] && ic == old(ic).(din := old(ic.din)[p := d])
    {
      hide Up, Table, Owned, Bits, Zeroed, SameFiles, EncDinode, IBlock, CacheOk;
      UpFacts();
      OwnedRange(sb, V(), T, owner);
      ghost var V0, T0 := V(), T;
      TableWeaken(sb, V(), T, owner, i);
      MetaChange(sb, V(), T, owner, i, d);
      CacheSet(ic, T, p, d);
      ic := ic.(din := ic.din[p := d]);
      T := T[i := d];
      ghost var T1 := T;
      Iupdate(p, i);
      SameTrans(V0, T0, V0, T1, V(), T);
    }

    /** The zeroing of a directory entry by sys_unlink: the name is gone. */
    method ZeroEntry(p: nat, off: nat, ghost i: nat, ghost j: nat) returns (ok: bool)
      requires Good() && At(p, i) && InOp() && 0 !in S() && Cost(i) < LOGOP && EntryAt(V(), T, i, off, j)
      modifies this`ic, this`T, this`owner, log, log.bc
      ensures Up()
      ensures !ok ==> NoFree(sb, V()) && old(Short(2))
      ensures ok ==> && Good() && At(p, i) && InOp() && 0 !in S() && ic == old(ic).(din := old(ic.din)[p := T[i]])
                     && Unlisted(old(V()), old(T), V(), T, i, off, j) && Cost(i) <= old(Cost(i)) + 1
    {
      hide Up, Consistent, Tidy, Content, DirMap, CacheOk, Refs, Typed, Wrote, Key, EntryAt, Unlisted, Nameless;
      EntryAtIs(V(), T, i, off, j);
      DirAt(p, i);
      ghost var V0, T0, k, e := V(), T, off / DESIZE, Zeros(DESIZE);
      SpanEntry(k);
      var r;
      ok, r := Writei(p, Zeros(DESIZE), off, i);
      if !ok { return; }
      assert r == DESIZE;            // panic("unlink: writei") is not reached
      WroteContent(V0, T0, V(), T, i, off, e);
      Recount(old(ic), T0, refs, p, i, T[i]);
      Relinked(V0, T0, names, i, T[i]);
      TidyUnlink(V0, T0, V(), T, names, i, k, j);
      UnlistedIs(V0, T0, V(), T, i, off, j);
    }

    /** `itrunc(ip); ip->type = 0; iupdate(ip)`: the file is emptied and its inode marked free. */
    method FreeFile(p: nat, ghost i: nat)
      requires Ready(-1) && At(p, i) && InOp() && IBlock(sb, i) in S() && |S() + {sb.bmapstart, IBlock(sb, i)}| <= LOGOP
      modifies this`ic, this`T, this`owner, log, log.bc
      ensures Ready(-1) && At(p, i) && InOp() && IBlock(sb, i) in S()
      ensures Freed(old(V()), old(T), V(), T, i) && owner == OwnerWithout(old(owner), i)
      ensures ic == old(ic).(din := old(ic.din)[p := T[i]])
    {
      hide Up, Consistent, CacheOk, SameFiles, OthersSame, IBlock, OnlyFile, OwnerWithout;
      ghost var V0, T0 := V(), T;
      TableWeaken(sb, V(), T, owner, i);
      Itrunc(p, i);
      ghost var V1, T1 := V(), T;
      OthersOnly(V0, T0, V1, T1, i);
      OpenWf(p, i);
      SetMeta(p, ic.din[p].(typ := 0), i);
      SameOnly(V1, T1, V(), T, i);
      OnlyTrans(V0, T0, V1, T1, V(), T, i);
    }

    lemma OpenWf(p: nat, i: nat)
      requires Ready(-1) && At(p, i)
      ensures WfDinode(T[i]) && T[i].size <= MAXBYTES
    {
      hide Bits, Ptr, Zeroed;
      OwnedRange(sb, V(), T, owner);
    }

    /** A slot that holds a freed inode. */
    lemma FreedHeld(p: nat, i: nat)
      requires Counted(p) && p < NINODE && |ic.ref| == |ic.inum| == NINODE && ic.ref[p] > 0 && ic.inum[p] == i < |T|
               && T[i].typ == 0
      ensures !Counted()
    {
      hide Refs;
      assert !Typed(ic, T);
    }

    /** The end of sys_unlink: a file without links is freed, even if others hold it; then iput. */
    method Release(p: nat, ghost i: nat)
      requires Ready(-1) && Counted() && At(p, i) && InOp()
      requires Dirs(V(), T) && Named(V(), T, names) && LinkedBut(T, i)
      requires Nameless(V(), T, i) && T[i].typ != T_DIR && IBlock(sb, i) in S()
               && |S() + {sb.bmapstart, IBlock(sb, i)}| <= LOGOP
      modifies this`ic, this`T, this`owner, this`refs, log, log.bc
      ensures Good(p) && InOp() && (Good() <==> old(T)[i].nlink > 0 || old(ic.ref[p]) == 1)
      ensures if old(T)[i].nlink == 0 then Freed(old(V()), old(T), V(), T, i) && owner == OwnerWithout(old(owner), i)
              else V() == old(V()) && T == old(T) && owner == old(owner)
      ensures ic == Dropped(old(ic).(din := old(ic.din)[p := T[i]]), p) && refs == old(refs)[i := old(refs[i]) - 1]
    {
      hide Up, Consistent, CacheOk, Refs, Typed, SameFiles, IBlock, OnlyFile, OwnerWithout, Dirs, Named, Nameless;
      ghost var V0, T0, c0 := V(), T, ic;
      if ic.din[p].nlink == 0 {
        FreeFile(p, i);
        TypedBut(c0, T0, refs, p, i, T[i]);
        ghost var V1 := V();
        Iput(p, i, p);
        if c0.ref[p] == 1 {
          SameOnly(V1, T, V(), T, i);
          OnlyTrans(V0, T0, V1, T, V(), T, i);
        } else {
          FreedHeld(p, i);
        }
        TidyRetype(V0, T0, V(), T, names, i);
      } else {
        Iput(p, i);
        TypedAny(ic, T, p);
      }
      assert Linked(T);
    }

    /** No transaction is open: nothing is reserved and nothing is logged. */
    ghost predicate Idle()
      reads log
    {
      log.T() == Txn([], [])
    }

    lemma IdleOutside()
      requires Up() && Idle()
      ensures log.outstanding == 0
    {
    }

    /** The on-disk log is empty except while a commit runs. */
    lemma LogEmpty()
      requires Up()
      ensures WfDisk(log.bc.disk.blocks, Geo(sb)) && Stands(log.bc.disk.blocks, Geo(sb)) == log.Durable()
    {
      hide Reserved, Loggable, Home, Mask;
      EmptyLog(log.bc.disk.blocks, log.G());
    }

    /** Outside transactions the disk stands for what the kernel sees. */
    lemma IdleDurable()
      requires Up() && Idle()
      ensures Stands(log.bc.disk.blocks, Geo(sb)) == V()
    {
      hide Reserved, Loggable, Home, Mask;
      SyncedNone(log.bc.b.disk, log.bc.b.blockno, log.bc.view, log.bc.disk.blocks);
      EmptyLog(log.bc.disk.blocks, log.G());
    }

    /** begin_op: with no other operation open, its guard is passed at once. */
    method Begin()
      requires Good() && Idle()
      modifies log`outstanding, log`ops
      ensures Good() && InOp() && S() == {} && V() == old(V())
    {
      hide Reserved, Consistent, CacheOk, Refs, Typed, Tidy, Mask, Loggable;
      assert MayBegin(log.T(), log.size);
      var begun := log.BeginOp();
      assert begun;
    }

    /** end_op: the transaction commits. Each disk state on the way stands for the image
        before it or for the image it has built. */
    method End(ghost ex: int := -1)
      requires Good(ex) && InOp()
      modifies log, log.bc, log.bc.disk
      ensures Good(ex) && Idle() && V() == old(V()) && Stands(log.bc.disk.blocks, Geo(sb)) == V()
      ensures old(log.bc.disk.hist) <= log.bc.disk.hist
      ensures Trail(log.bc.disk.hist, Since(old(log.bc.disk.hist)), Geo(sb),
                    [Stands(old(log.bc.disk.blocks), Geo(sb)), V()])
    {
      hide Reserved, Consistent, CacheOk, Refs, Typed, Tidy, Mask, Loggable, Trail, CommitTrace, Home, After;
      LogEmpty();
      ghost var h, d := log.bc.disk.hist, log.bc.disk.blocks;
      log.EndOp(0);
      assert h <= log.bc.disk.hist && h[|h| - 1] == d;
      TrailSince(h, log.bc.disk.hist, Geo(sb), [Stands(d, Geo(sb)), V()]);
      LogEmpty();
    }

    lemma TypAt(p: nat, i: nat)
      requires Counted() && At(p, i)
      ensures T[i].typ != 0
    {
      hide Refs, CacheOk;
    }

    lemma NoOpsIdle()
      requires Up() && log.ops == []
      ensures Idle()
    {
      hide Loggable, Mask;
    }

    lemma SizeOk(i: nat)
      requires Ready(-1) && i < |T|
      ensures WfFile(T[i])
    {
      hide Bits, Ptr, Zeroed;
      OwnedRange(sb, V(), T, owner);
    }
  }
}
