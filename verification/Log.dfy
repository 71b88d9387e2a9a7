/** The redo log of kernel/log.c over the buffer cache. */
module Log {
  import opened Bytes
  import opened Bio
  import opened LogSpec
  import opened Reservation

  /** Fewer dirty and referenced blocks than buffers: bget finds one to recycle. */
  lemma CanRecycle(b: Bufs, n: nat, list: seq<nat>, held: set<nat>)
    requires Unique(b.blockno, n) && Flags(b.blockno, b.refcnt, b.valid, b.disk, -1)
    requires forall j :: 0 <= j < NBUF && b.disk[j] ==> b.blockno[j] in list
    requires forall j :: 0 <= j < NBUF && b.refcnt[j] > 0 ==> b.blockno[j] in held
    requires |list| + |held| < NBUF
    ensures exists j :: 0 <= j < NBUF && Recyclable(b, j)
  {
    if forall j :: 0 <= j < NBUF ==> !Recyclable(b, j) {
      var ls := Elems(list);
      var all := ls + held;
      forall j | 0 <= j < NBUF ensures b.blockno[j] in all && b.blockno[j] != 0 {
        assert !Recyclable(b, j);
      }
      Card(b.blockno, all, NBUF);
      ListCard(list);
      assert false;
    }
  }

  /** So it does in the middle of an operation that holds up to four blocks at once: bmap holds the
      indirect block while balloc reads and changes two others, itrunc while bfree does. */
  lemma HeldSpare(t: Txn, size: nat, b: Bufs, n: nat, held: set<nat>)
    requires Reserved(t, size) && size <= HDRMAX && |held| <= 4
    requires Unique(b.blockno, n) && Flags(b.blockno, b.refcnt, b.valid, b.disk, -1)
    requires forall j :: 0 <= j < NBUF && b.disk[j] ==> b.blockno[j] in t.list
    requires forall j :: 0 <= j < NBUF && b.refcnt[j] > 0 ==> b.blockno[j] in held
    ensures exists j :: 0 <= j < NBUF && Recyclable(b, j)
  {
    ReservedBound(t, size);
    CanRecycle(b, n, t.list, held);
  }

  ghost function Elems(l: seq<nat>): set<nat> {
    set x | x in l
  }

  lemma {:induction false} ListCard(l: seq<nat>)
    ensures |Elems(l)| <= |l|
  {
    if l != [] {
      ListCard(l[1..]);
      assert l == [l[0]] + l[1..];
      assert Elems(l) == Elems(l[1..]) + {l[0]};
    }
  }

  /** Only blocks of `l` are dirty or differ from the disk. */
  ghost predicate SyncedTo(disk: seq<bool>, blockno: seq<nat>, view: seq<Block>, blocks: seq<Block>, l: seq<nat>) {
    && |disk| == |blockno| == NBUF && |view| == |blocks|
    && (forall j :: 0 <= j < NBUF && disk[j] ==> blockno[j] in l)
    && (forall bn :: 0 <= bn < |view| && bn !in l ==> view[bn] == blocks[bn])
  }

  ghost predicate NoRefs(refcnt: seq<nat>) {
    |refcnt| == NBUF && forall j :: 0 <= j < NBUF ==> refcnt[j] == 0
  }

  /** Buffer `i` is referenced, once, and no other. */
  ghost predicate OneRef(refcnt: seq<nat>, i: nat) {
    |refcnt| == NBUF && i < NBUF && refcnt[i] == 1 &&
    forall j :: 0 <= j < NBUF && j != i ==> refcnt[j] == 0
  }

  /** Exactly the buffers `i` and `k` are referenced, once each. */
  ghost predicate TwoRefs(refcnt: seq<nat>, i: nat, k: nat) {
    && |refcnt| == NBUF && i < NBUF && k < NBUF && i != k && refcnt[i] == refcnt[k] == 1
    && forall j :: 0 <= j < NBUF && j != i && j != k ==> refcnt[j] == 0
  }

  /** All referenced buffers hold blocks of `held`. */
  ghost predicate Holding(refcnt: seq<nat>, blockno: seq<nat>, held: set<nat>) {
    |refcnt| == |blockno| == NBUF && forall j :: 0 <= j < NBUF && refcnt[j] > 0 ==> blockno[j] in held
  }

  /** Three more blocks are within the operation's budget. */
  ghost predicate Fits3(s: set<nat>, a: nat, b: nat, c: nat) {
    |s + {a} + {b} + {c}| <= LOGOP
  }

  lemma FitsEach(s: set<nat>, a: nat, b: nat, c: nat)
    requires Fits3(s, a, b, c)
    ensures |s + {a}| <= LOGOP && |s + {a} + {b}| <= LOGOP
  {
    assert |s + {a} + {b}| <= |s + {a} + {b} + {c}| by { Grows(s + {a} + {b}, c); }
    assert |s + {a}| <= |s + {a} + {b}| by { Grows(s + {a}, b); }
  }

  lemma Grows(s: set<nat>, x: nat)
    ensures |s| <= |s + {x}|
  {
    if x in s { assert s + {x} == s; }
  }

  lemma AllowedNext(t: Txn, k: nat, bn: nat, size: nat)
    requires k < |t.ops| && |t.ops[k] + {bn}| <= LOGOP
    ensures Allowed(t, Write(k, bn), size)
  {
  }

  lemma NoneHeld(b: Bufs, view: seq<Block>, blocks: seq<Block>)
    requires Coherent(b, view, blocks) && NoRefs(b.refcnt)
    ensures Holding(b.refcnt, b.blockno, {})
  {
  }

  /** Writing the same data to cache and disk keeps them in step. */
  lemma SyncedWrite(disk: seq<bool>, blockno: seq<nat>, view: seq<Block>, blocks: seq<Block>, l: seq<nat>, dst: nat,
      data: Block)
    requires SyncedTo(disk, blockno, view, blocks, l) && dst < NBUF && blockno[dst] < |view|
    ensures var bn := blockno[dst];
            SyncedTo(disk[dst := false], blockno, view[bn := data], blocks[bn := data], l)
  {
  }

  lemma SyncedFill(disk: seq<bool>, blockno: seq<nat>, view: seq<Block>, blocks: seq<Block>, l: seq<nat>, bn: nat,
      data: Block)
    requires SyncedTo(disk, blockno, view, blocks, l) && bn < |view|
    ensures SyncedTo(disk, blockno, view[bn := data], blocks, l + [bn])
  {
  }

  lemma SyncedAt(disk: seq<bool>, blockno: seq<nat>, view: seq<Block>, blocks: seq<Block>, l: seq<nat>, bn: nat)
    requires SyncedTo(disk, blockno, view, blocks, l) && bn < |view| && bn !in l
    ensures |view| == |blocks| && view[bn] == blocks[bn]
  {
  }

  lemma SyncedNone(disk: seq<bool>, blockno: seq<nat>, view: seq<Block>, blocks: seq<Block>)
    requires SyncedTo(disk, blockno, view, blocks, [])
    ensures view == blocks
  {
  }

  lemma SyncedDrop(b: Bufs, view: seq<Block>, blocks: seq<Block>, l: seq<nat>, i: nat)
    requires Coherent(b, view, blocks) && i < NBUF && 1 <= b.blockno[i] < |view| && !b.disk[i]
    requires SyncedTo(b.disk, b.blockno, view, blocks, [b.blockno[i]] + l) && view[b.blockno[i]] == blocks[b.blockno[i]]
    ensures SyncedTo(b.disk, b.blockno, view, blocks, l)
  {
  }

  lemma HeldDistinct(b: Bufs, view: seq<Block>, blocks: seq<Block>, i: nat, j: nat)
    requires Coherent(b, view, blocks) && i < NBUF && j < NBUF && i != j && b.refcnt[i] > 0 && b.refcnt[j] > 0
    ensures b.blockno[i] != b.blockno[j]
  {
  }

  lemma LoggableAt(l: seq<nat>, g: Geometry, n: nat, i: nat)
    requires Loggable(l, g, n) && GeoOk(g, n) && i < |l|
    ensures 1 <= l[i] < n && !InLog(g, l[i]) && InLog(g, g.start + 1 + i) && g.start + 1 + i < n
    ensures |l| + LOGOP <= g.size
  {
  }

  lemma SuffixOf(block: seq<nat>, n: nat, k: nat, g: Geometry, size: nat)
    requires k < n <= |block| && Loggable(block[..n], g, size)
    ensures block[k..n] == [block[k]] + block[k + 1..n]
    ensures forall i :: 0 <= i < n - k ==> block[k..n][i] == block[..n][k + i]
    ensures forall bn :: InLog(g, bn) ==> bn !in block[k..n]
  {
  }

  /** A cache that has just been started. */
  lemma IdleCache(b: Bufs, view: seq<Block>, blocks: seq<Block>)
    requires Coherent(b, view, blocks) && view == blocks
    requires forall i :: 0 <= i < NBUF ==> b.refcnt[i] == 0 && !b.disk[i]
    ensures NoRefs(b.refcnt) && SyncedTo(b.disk, b.blockno, view, blocks, [])
  {
  }

  class Log {
    const bc: BCache
    ghost const low: nat    // callers log no block below this one
    var start: nat
    var size: nat
    var outstanding: nat
    var committing: bool
    var n: nat              // lh.n
    var block: seq<nat>     // lh.block
    ghost var ops: seq<set<nat>>   // what each open operation has logged

    ghost function G(): Geometry
      reads this
    {
      Geometry(start, size, low)
    }

    /** The blocks logged by the open transaction. */
    ghost function List(): seq<nat>
      reads this
    {
      if n <= |block| then block[..n] else []
    }

    ghost predicate Base()
      reads this, bc, bc.disk
    {
      && bc.Valid() && GeoOk(G(), |bc.view|)
      && |block| == HDRMAX && n <= HDRMAX && Loggable(block[..n], G(), |bc.view|)
    }

    ghost predicate Synced(l: seq<nat>)
      reads this, bc, bc.disk
    {
      SyncedTo(bc.b.disk, bc.b.blockno, bc.view, bc.disk.blocks, l)
    }

    ghost predicate Unreferenced()
      reads this, bc
    {
      NoRefs(bc.b.refcnt)
    }

    /** bread while nothing is held; `l` bounds the dirty blocks. */
    method Read1(bn: nat, ghost l: seq<nat>) returns (i: nat)
      requires Base() && Unreferenced() && Synced(l) && |l| + LOGOP <= size && 1 <= bn < |bc.view|
      modifies bc`b
      ensures Base() && OneRef(bc.b.refcnt, i) && Synced(l)
      ensures |bc.b.data| == NBUF && bc.b.blockno[i] == bn && bc.b.data[i] == bc.view[bn] && bc.b.valid[i]
      ensures bc.b.disk[i] || bc.view[bn] == bc.disk.blocks[bn]
    {
      hide Lru, Loggable;
      CanRecycle(bc.b, |bc.view|, l, {});
      i := bc.Bread(bn);
    }

    /** bread while buffer `i0` is held. */
    method Read2(bn: nat, i0: nat, ghost l: seq<nat>) returns (i: nat)
      requires Base() && OneRef(bc.b.refcnt, i0) && Synced(l) && |l| + LOGOP <= size
      requires 1 <= bn < |bc.view| && bn != bc.b.blockno[i0]
      modifies bc`b
      ensures Base() && Synced(l) && TwoRefs(bc.b.refcnt, i0, i)
      ensures |bc.b.data| == |bc.b.blockno| == |bc.b.disk| == NBUF
      ensures bc.b.blockno[i0] == old(bc.b.blockno[i0]) && bc.b.disk[i0] == old(bc.b.disk[i0])
      ensures bc.b.data[i0] == bc.view[bc.b.blockno[i0]]
      ensures bc.b.blockno[i] == bn && bc.b.data[i] == bc.view[bn]
      ensures bc.b.disk[i] || bc.view[bn] == bc.disk.blocks[bn]
    {
      hide Lru, Loggable;
      CanRecycle(bc.b, |bc.view|, l, {bc.b.blockno[i0]});
      i := bc.Bread(bn);
    }

    /** The header fields, written into the held header buffer. */
    method FillHead(b: nat)
      requires bc.Valid() && b < NBUF && bc.b.refcnt[b] > 0
      requires |block| == HDRMAX && n <= HDRMAX
      modifies bc`b, bc`view
      ensures bc.Valid() && 1 <= bc.b.blockno[b] < |old(bc.view)|
      ensures bc.b == old(bc.b).(data := old(bc.b).data[b := WithEntries(old(bc.b).data[b], block[..n], n)])
      ensures bc.view == old(bc.view)[bc.b.blockno[b] := WithEntries(old(bc.b).data[b], block[..n], n)]
    {
      hide Lru, Coherent;
      HeldRange(bc.b, bc.view, bc.disk.blocks, b);
      bc.Fill(b, 0, Enc(n, 4));
      ghost var d0 := old(bc.b).data;
      var i := 0;
      while i < n
        invariant 0 <= i <= n && bc.Valid()
        invariant bc.b == old(bc.b).(data := d0[b := WithEntries(d0[b], block[..n], i)])
        invariant bc.view == old(bc.view)[bc.b.blockno[b] := WithEntries(d0[b], block[..n], i)]
      {
        bc.Fill(b, 4 * (i + 1), Enc(block[i], 4));
        i := i + 1;
      }
    }

    /** write_head, with the blocks of `l` still dirty. */
    method WriteHead(ghost l: seq<nat>)
      requires Base() && Unreferenced() && Synced(l) && |l| + LOGOP <= size && start !in l
      modifies bc, bc.disk
      ensures Base() && Unreferenced() && Synced(l)
      ensures bc.disk.blocks == old(bc.disk.blocks)[start := WithEntries(old(bc.disk.blocks)[start], block[..n], n)]
      ensures bc.view == old(bc.view)[start := bc.disk.blocks[start]]
      ensures bc.disk.hist == old(bc.disk.hist) + [bc.disk.blocks]
    {
      hide Lru, Coherent, Loggable, Mask, WithEntries;
      var b := Read1(start, l);
      FillHead(b);
      bc.Bwrite(b);
      bc.Brelse(b);
    }

    /** The whole block is overwritten with `data` and written out. */
    method Store(i: nat, data: Block)
      requires bc.Valid() && i < NBUF && |bc.b.refcnt| == NBUF && bc.b.refcnt[i] > 0
      modifies bc`b, bc`view, bc.disk
      ensures bc.Valid() && |old(bc.b).data| == |old(bc.b).disk| == |bc.b.blockno| == NBUF
      ensures bc.b == old(bc.b).(data := old(bc.b).data[i := data], disk := old(bc.b).disk[i := false])
      ensures 1 <= bc.b.blockno[i] < |old(bc.view)| == |old(bc.disk.blocks)|
      ensures bc.view == old(bc.view)[bc.b.blockno[i] := data]
      ensures bc.disk.blocks == old(bc.disk.blocks)[bc.b.blockno[i] := data]
      ensures bc.disk.hist == old(bc.disk.hist) + [bc.disk.blocks]
    {
      hide Lru, Coherent;
      HeldRange(bc.b, bc.view, bc.disk.blocks, i);
      assert Overlay(bc.b.data[i], 0, data) == data;
      bc.Fill(i, 0, data);
      bc.Bwrite(i);
    }

    /** The shared tail of both copy loops: copy `src` over `dst`, write `dst`, release both. */
    method CopyOut(dst: nat, src: nat, ghost l: seq<nat>)
      requires Base() && TwoRefs(bc.b.refcnt, dst, src) && Synced(l) && |bc.b.data| == NBUF
      requires bc.b.disk[src] || bc.view[bc.b.blockno[src]] == bc.disk.blocks[bc.b.blockno[src]]
      modifies bc, bc.disk
      ensures Base() && Unreferenced() && Synced(l) && bc.b.blockno == old(bc.b.blockno)
      ensures !bc.b.disk[dst]
      ensures var bn, d := bc.b.blockno[dst], old(bc.view)[bc.b.blockno[src]];
              && bc.disk.blocks == old(bc.disk.blocks)[bn := d] && bc.view == old(bc.view)[bn := d]
      ensures bc.disk.hist == old(bc.disk.hist) + [bc.disk.blocks]
    {
      hide Lru, Coherent, Loggable, SyncedTo;
      HeldRange(bc.b, bc.view, bc.disk.blocks, dst);
      HeldRange(bc.b, bc.view, bc.disk.blocks, src);
      HeldDistinct(bc.b, bc.view, bc.disk.blocks, dst, src);
      SyncedWrite(bc.b.disk, bc.b.blockno, bc.view, bc.disk.blocks, l, dst, bc.b.data[src]);
      Store(dst, bc.b.data[src]);
      bc.Brelse(src);
      bc.Brelse(dst);
    }

    /** One round of write_log: the logged block goes to log slot `tail`. */
    method LogOne(tail: nat)
      requires Base() && Unreferenced() && Synced(block[..n]) && tail < n
      modifies bc, bc.disk
      ensures Base() && Unreferenced() && Synced(block[..n])
      ensures bc.disk.blocks == LogWrite(old(bc.disk.blocks), G(), block[..n], old(bc.view), tail)
      ensures bc.view == old(bc.view)[start + 1 + tail := old(bc.view)[block[tail]]]
      ensures bc.disk.hist == old(bc.disk.hist) + [bc.disk.blocks]
    {
      hide Lru, Coherent, Loggable, SyncedTo, NoRefs, OneRef, TwoRefs, InLog;
      ghost var l := block[..n];
      LoggableAt(l, G(), |bc.view|, tail);
      var to := Read1(start + tail + 1, l);
      var from := Read2(block[tail], to, l);
      CopyOut(to, from, l);
    }

    /** One round of install_trans: log slot `tail` goes home and its buffer is clean. */
    method InstallOne(tail: nat)
      requires Base() && Unreferenced() && tail < n && Synced(block[tail..n])
      modifies bc, bc.disk
      ensures Base() && Unreferenced() && Synced(block[tail + 1..n])
      ensures bc.disk.blocks == InstallWrite(old(bc.disk.blocks), G(), block[..n], tail)
      ensures bc.view == old(bc.view)[block[tail] := old(bc.disk.blocks)[start + 1 + tail]]
      ensures bc.disk.hist == old(bc.disk.hist) + [bc.disk.blocks]
    {
      hide Lru, Loggable, NoRefs, OneRef, Coherent, InLog, Distinct, SyncedTo;
      ghost var l := block[tail..n];
      LoggableAt(block[..n], G(), |bc.view|, tail);
      SuffixOf(block, n, tail, G(), |bc.view|);
      SyncedAt(bc.b.disk, bc.b.blockno, bc.view, bc.disk.blocks, l, start + 1 + tail);
      var lbuf := Read1(start + tail + 1, l);
      var dbuf := Read2(block[tail], lbuf, l);
      CopyOut(dbuf, lbuf, l);
      SyncedDrop(bc.b, bc.view, bc.disk.blocks, block[tail + 1..n], dbuf);
      // install_trans(0) also sets dbuf->disk = 0, which bwrite has done already
    }

    /** The disk's history and state. */
    ghost function Now(): Run
      reads bc.disk
    {
      Run(bc.disk.hist, bc.disk.blocks)
    }

    /** write_log. */
    method WriteLog()
      requires Base() && Unreferenced() && Synced(block[..n])
      modifies bc, bc.disk
      ensures Base() && Unreferenced() && Synced(block[..n])
      ensures Mask(bc.view, G()) == Mask(old(bc.view), G())
      ensures Now() == After(old(Now()), LogTrace(old(bc.disk.blocks), G(), block[..n], old(bc.view), 0))
    {
      hide Lru, Coherent;
      ghost var g, l, v := G(), block[..n], bc.view;
      ghost var end := After(Now(), LogTrace(bc.disk.blocks, g, l, v, 0));
      var tail := 0;
      while tail < n
        invariant 0 <= tail <= n && Base() && Unreferenced() && Synced(l) && |bc.view| == |v|
        invariant forall bn :: 0 <= bn < |v| && !InLog(g, bn) ==> bc.view[bn] == v[bn]
        invariant After(Now(), LogTrace(bc.disk.blocks, g, l, v, tail)) == end
      {
        assert l[tail] == block[tail];
        LogStep(bc.disk.hist, bc.disk.blocks, g, l, v, tail);
        LogOne(tail);
        assert InLog(g, start + 1 + tail);
        tail := tail + 1;
      }
    }

    /** install_trans. */
    method InstallTrans()
      requires Base() && Unreferenced() && Synced(block[..n])
      modifies bc, bc.disk
      ensures Base() && Unreferenced() && Synced([])
      ensures Now() == After(old(Now()), InstallTrace(old(bc.disk.blocks), G(), block[..n], 0))
    {
      hide Lru, Coherent;
      ghost var g, l := G(), block[..n];
      ghost var end := After(Now(), InstallTrace(bc.disk.blocks, g, l, 0));
      var tail := 0;
      assert block[0..n] == l;
      while tail < n
        invariant 0 <= tail <= n && Base() && Unreferenced() && Synced(block[tail..n])
        invariant |bc.disk.blocks| == |old(bc.disk.blocks)|
        invariant After(Now(), InstallTrace(bc.disk.blocks, g, l, tail)) == end
      {
        assert l[tail] == block[tail];
        InstallStep(bc.disk.hist, bc.disk.blocks, g, l, tail);
        InstallOne(tail);
        tail := tail + 1;
      }
      assert block[n..n] == [];
    }

    /** commit: every write it makes, in order, is one of CommitTrace. */
    method Commit()
      requires Base() && Unreferenced() && Synced(block[..n]) && Count(bc.disk.blocks[start]) == 0
      modifies this`n, bc, bc.disk
      ensures Base() && Unreferenced() && Synced([]) && n == 0
      ensures Now() == After(old(Now()), CommitTrace(old(bc.disk.blocks), G(), old(block[..n]), old(bc.view)))
    {
      hide Lru, Coherent, CommitTrace, InstallTrace, LogTrace, Mask, Home, Get;
      if n == 0 {
        CommitNone(Now(), G(), bc.view);
      } else {
        ghost var l := block[..n];
        CommitRun(Now(), G(), l, bc.view);
        WriteLog();
        assert !InLog(G(), l[0]);
        WriteHead(l);
        InstallTrans();
        n := 0;
        WriteHead([]);
      }
    }

    /** The open transaction. */
    ghost function T(): Txn
      reads this
    {
      Txn(List(), ops)
    }

    /** The home blocks as the running kernel sees them, open transaction included. */
    ghost function Img(): seq<Block>
      reads this, bc
    {
      Mask(bc.view, G())
    }

    /** Between operations: nothing is referenced, only logged blocks differ from the disk,
        and the on-disk log is empty. */
    ghost predicate Valid()
      reads this, bc, bc.disk
    {
      Running() && Unreferenced()
    }

    /** The same, while buffers may be held. */
    ghost predicate Running()
      reads this, bc, bc.disk
    {
      && Base() && Synced(List()) && Count(bc.disk.blocks[start]) == 0
      && !committing && outstanding == |ops| && Reserved(T(), size)
    }

    /** The contents that a crash now would leave behind. */
    ghost function Durable(): seq<Block>
      requires Valid()
      reads this, bc, bc.disk
    {
      Home(bc.disk.blocks, G())
    }

    /** read_head. */
    method ReadHead()
      requires Base() && Unreferenced() && Synced([]) && n == 0 && WfDisk(bc.disk.blocks, G())
      modifies this`n, this`block, bc
      ensures Base() && Unreferenced() && Synced([]) && block[..n] == Entries(bc.disk.blocks[start])
      ensures bc.view == old(bc.view)
    {
      hide Lru, Coherent, Home, Mask, Distinct, Get;
      var b := Read1(start, []);
      var h := bc.b.data[b];
      assert h == bc.disk.blocks[start];
      var m := Count(h);
      var i := 0;
      while i < m
        invariant 0 <= i <= m && |block| == HDRMAX
        invariant forall k :: 0 <= k < i ==> block[k] == Entry(h, k)
        modifies this`block
      {
        block := block[i := Entry(h, i)];
        i := i + 1;
      }
      n := m;
      assert block[..n] == Entries(h);
      bc.Brelse(b);
    }

    /** recover_from_log: its writes, in order, are those of RecoveryTrace. */
    method Recover()
      requires Base() && Unreferenced() && Synced([]) && n == 0 && WfDisk(bc.disk.blocks, G())
      modifies this`n, this`block, bc, bc.disk
      ensures Base() && Unreferenced() && Synced([]) && n == 0 && Count(bc.disk.blocks[start]) == 0
      ensures Now() == After(old(Now()), RecoveryTrace(old(bc.disk.blocks), G()))
      ensures Img() == Home(bc.disk.blocks, G()) == Home(old(bc.disk.blocks), G())
    {
      hide Lru, Coherent, Mask, Home, RecoveryTrace, InstallTrace, Distinct, NoRefs, Get, InLog;
      ghost var d, g := bc.disk.blocks, G();
      RecoverySafe(d, g);
      ReadHead();
      if n == 0 {
        RecoveryNone(Now(), g);
      } else {
        RecoveryRun(Now(), g);
        InstallTrans();
        n := 0;
        WriteHead([]);
      }
      SyncedNone(bc.b.disk, bc.b.blockno, bc.view, bc.disk.blocks);
      EmptyLog(bc.disk.blocks, g);
    }

    /** init_log, on a freshly started cache. */
    constructor (bc: BCache, start: nat, size: nat, ghost low: nat)
      requires bc.Valid() && forall i :: 0 <= i < NBUF ==> bc.b.refcnt[i] == 0 && !bc.b.disk[i]
      requires bc.view == bc.disk.blocks && WfDisk(bc.disk.blocks, Geometry(start, size, low))
      modifies bc, bc.disk
      ensures this.bc == bc && G() == Geometry(start, size, low) && Valid() && T() == Txn([], [])
      ensures Now() == After(old(Run(bc.disk.hist, bc.disk.blocks)), RecoveryTrace(old(bc.disk.blocks), G()))
      ensures Img() == Durable() == Home(old(bc.disk.blocks), G())
    {
      hide Lru, Coherent, Mask, Home, Reserved, RecoveryTrace, Distinct, Get, InLog;
      this.bc, this.start, this.size, this.low := bc, start, size, low;
      outstanding, committing, n, block, ops := 0, false, 0, seq(HDRMAX, _ => 0), [];
      new;
      ReservedEmpty(size);
      IdleCache(bc.b, bc.view, bc.disk.blocks);
      assert block[..n] == [];
      Recover();
    }

    /** One round of begin_op's loop: the operation begins, or the caller would sleep and nothing
        has changed. */
    method BeginOp() returns (begun: bool)
      requires Valid()
      modifies this`outstanding, this`ops
      ensures Valid() && begun == MayBegin(old(T()), size)
      ensures begun <==> n + 5 * (old(outstanding) + 1) + 5 <= size
      ensures T() == if begun then Step(old(T()), Begin) else old(T())
    {
      begun := !committing && n + (outstanding + 1) * LOGOP <= size - LOGOP;
      if !begun { return; }
      StepReserved(T(), Begin, size);
      outstanding := outstanding + 1;
      ops := ops + [{}];
    }

    /** log_write of the held buffer `i`, on behalf of operation `k`, whatever else is held. */
    method LogWriteBuf(i: nat, ghost k: nat)
      requires Base() && i < NBUF && |bc.b.refcnt| == |bc.b.blockno| == |bc.b.disk| == NBUF && bc.b.refcnt[i] > 0
      requires low <= bc.b.blockno[i] && !InLog(G(), bc.b.blockno[i]) && Synced(List() + [bc.b.blockno[i]])
      requires outstanding == |ops| && Reserved(T(), size) && Allowed(T(), Write(k, bc.b.blockno[i]), size)
      modifies this`n, this`block, this`ops, bc`b
      ensures Base() && Synced(List())
      ensures bc.b == old(bc.b).(disk := old(bc.b).disk[i := true])
      ensures Reserved(T(), size) && T() == Step(old(T()), Write(k, bc.b.blockno[i])) && |ops| == |old(ops)|
    {
      hide Lru, Loggable, Coherent, Mask, Reserved, Distinct;
      ghost var bn, l := bc.b.blockno[i], List();
      StepReserved(T(), Write(k, bn), size);
      ReservedBound(Step(T(), Write(k, bn)), size);
      HeldRange(bc.b, bc.view, bc.disk.blocks, i);
      LoggedLoggable(l, G(), |bc.view|, bn);
      assert n < size - 1;       // panic("log: too big") is not reached
      assert outstanding >= 1;   // nor panic("log: outside of trans")
      var j := 0;
      while j < n && block[j] != bc.b.blockno[i]
        invariant 0 <= j <= n
        invariant forall m :: 0 <= m < j ==> block[m] != bn
      {
        j := j + 1;
      }
      if j == n {
        block := block[j := bc.b.blockno[i]];
        n := n + 1;
        assert List() == l + [bn];
      } else {
        assert l[j] == bn;
      }
      assert List() == Logged(l, bn);
      bc.MarkDirty(i);
      ops := ops[k := ops[k] + {bn}];
    }

    /** bread in the middle of an operation, while up to three other blocks are held: the panic
        "bget: no buffers" is not reached. */
    method ReadHeld(bn: nat, ghost held: set<nat>) returns (i: nat)
      requires Running() && Holding(bc.b.refcnt, bc.b.blockno, held) && |held| <= 3 && 1 <= bn < |bc.view|
               && !InLog(G(), bn)
      modifies bc`b
      ensures Running() && Holding(bc.b.refcnt, bc.b.blockno, held + {bn}) && i < NBUF
              && |bc.b.data| == |bc.b.disk| == NBUF
      ensures bc.b.blockno[i] == bn && bc.b.data[i] == bc.view[bn] == Img()[bn]
      ensures bc.b.refcnt == old(bc.b.refcnt)[i := old(bc.b.refcnt)[i] + 1]
      ensures old(bc.b.refcnt)[i] == 0 ==> bc.b.disk[i] || bc.view[bn] == bc.disk.blocks[bn]
      ensures forall j :: 0 <= j < NBUF && old(bc.b.refcnt)[j] > 0 ==> bc.b.blockno[j] == old(bc.b.blockno)[j]
    {
      hide Lru, Loggable, Distinct, Reserved, Mask, InLog;
      HeldSpare(T(), size, bc.b, |bc.view|, held);
      MaskUpdate(bc.view, G(), bn, bc.view[bn]);
      i := bc.Bread(bn);
    }

    /** bread, change a byte range in place, log_write, brelse, while up to three other blocks are held:
        they stay held, and in the same buffers. */
    method UpdateHeld(bn: nat, off: nat, src: seq<byte>, ghost k: nat, ghost held: set<nat>)
      requires Running() && Holding(bc.b.refcnt, bc.b.blockno, held) && |held| <= 3
      requires low <= bn < |bc.view| && !InLog(G(), bn) && off + |src| <= BSIZE && Allowed(T(), Write(k, bn), size)
      modifies this`n, this`block, this`ops, bc
      ensures Running() && T() == Step(old(T()), Write(k, bn)) && bc.b.refcnt == old(bc.b.refcnt) && G() == old(G())
      ensures Holding(bc.b.refcnt, bc.b.blockno, held) && bc.disk.blocks == old(bc.disk.blocks)
      ensures |bc.view| == |old(bc.view)| && Img() == old(Img())[bn := Overlay(old(Img())[bn], off, src)]
      ensures forall j :: 0 <= j < NBUF && old(bc.b.refcnt)[j] > 0 ==> bc.b.blockno[j] == old(bc.b.blockno)[j]
    {
      hide Lru, Coherent, Loggable, Distinct, Mask, Reserved, Allowed, Overlay, SyncedTo, GeoOk, Get, InLog;
      GeoLow(G(), |bc.view|);
      var b := ReadHeld(bn, held);
      ChangeHeld(b, off, src, k);
    }

    /** A held block is changed in place, logged and given back. */
    method ChangeHeld(b: nat, off: nat, src: seq<byte>, ghost k: nat)
      requires Running() && b < |bc.b.refcnt| == |bc.b.blockno| == NBUF && bc.b.refcnt[b] > 0
      requires low <= bc.b.blockno[b] && !InLog(G(), bc.b.blockno[b]) && off + |src| <= BSIZE
               && Allowed(T(), Write(k, bc.b.blockno[b]), size)
      modifies this`n, this`block, this`ops, bc
      ensures Running() && T() == Step(old(T()), Write(k, old(bc.b).blockno[b])) && G() == old(G())
              && bc.disk.blocks == old(bc.disk.blocks)
      ensures bc.b.refcnt == old(bc.b).refcnt[b := old(bc.b).refcnt[b] - 1] && bc.b.blockno == old(bc.b).blockno
      ensures old(bc.b).blockno[b] < |Img()| == |old(Img())| && |bc.view| == |old(bc.view)|
      ensures var bn := old(bc.b).blockno[b]; Img() == old(Img())[bn := Overlay(old(Img())[bn], off, src)]
    {
      hide Lru, Coherent, Loggable, Distinct, Mask, Reserved, Allowed, Overlay, SyncedTo, GeoOk, Get, InLog;
      ghost var bn := bc.b.blockno[b];
      HeldRange(bc.b, bc.view, bc.disk.blocks, b);
      MaskUpdate(bc.view, G(), bn, Overlay(bc.view[bn], off, src));
      SyncedFill(bc.b.disk, bc.b.blockno, bc.view, bc.disk.blocks, List(), bn, Overlay(bc.view[bn], off, src));
      bc.Fill(b, off, src);
      LogWriteBuf(b, k);
      bc.Brelse(b);
    }

    /** bread, use the data, brelse. */
    method ReadBlock(bn: nat) returns (data: Block)
      requires Valid() && 1 <= bn < |bc.view| && !InLog(G(), bn)
      modifies bc
      ensures Valid() && bc.view == old(bc.view) && data == Img()[bn]
    {
      hide Lru, Coherent, Loggable, Distinct, Reserved, SyncedTo, Mask, InLog;
      NoneHeld(bc.b, bc.view, bc.disk.blocks);
      var b := ReadHeld(bn, {});
      data := bc.b.data[b];
      bc.Brelse(b);
    }

    /** bread, change a byte range in place, log_write, brelse. */
    method UpdateBlock(bn: nat, off: nat, src: seq<byte>, ghost k: nat)
      requires Valid() && low <= bn < |bc.view| && !InLog(G(), bn) && off + |src| <= BSIZE
      requires Allowed(T(), Write(k, bn), size)
      modifies this`n, this`block, this`ops, bc
      ensures Valid() && T() == Step(old(T()), Write(k, bn))
      ensures Img() == old(Img())[bn := Overlay(old(Img())[bn], off, src)]
    {
      hide Lru, Coherent, Loggable, Distinct, Mask, Reserved, Allowed, Overlay, SyncedTo, GeoOk, Get, InLog;
      NoneHeld(bc.b, bc.view, bc.disk.blocks);
      UpdateHeld(bn, off, src, k, {});
    }

    /** How bmap fills an entry of the indirect block `ind`: it holds that block while balloc changes
        the bitmap `bm` and clears the new block `nb`. The effect is that of three updates in a row. */
    method UpdateAround(ind: nat, off: nat, entry: seq<byte>, bm: nat, boff: nat, bits: seq<byte>, nb: nat, data: Block,
        ghost k: nat)
      requires Valid() && low <= ind < |bc.view| && low <= bm < |bc.view| && low <= nb < |bc.view| && ind != bm
               && ind != nb
      requires !InLog(G(), ind) && !InLog(G(), bm) && !InLog(G(), nb) && off + |entry| <= BSIZE
               && boff + |bits| <= BSIZE
      requires k < |ops| && Fits3(ops[k], bm, nb, ind)
      modifies this`n, this`block, this`ops, bc
      ensures Valid() && T() == Step(Step(Step(old(T()), Write(k, bm)), Write(k, nb)), Write(k, ind))
      ensures var d := old(Img());
              Img() == d[bm := Overlay(d[bm], boff, bits)][nb := data][ind := Overlay(d[ind], off, entry)]
    {
      hide Lru, Coherent, Loggable, Distinct, Mask, Reserved, Overlay, SyncedTo, GeoOk, Get, InLog;
      NoneHeld(bc.b, bc.view, bc.disk.blocks);
      GeoLow(G(), |bc.view|);
      FitsEach(ops[k], bm, nb, ind);
      var bp := ReadHeld(ind, {});
      AllowedNext(T(), k, bm, size);
      UpdateHeld(bm, boff, bits, k, {ind});
      AllowedNext(T(), k, nb, size);
      UpdateHeld(nb, 0, data, k, {ind});
      OverlayAll(old(Img())[bm := Overlay(old(Img())[bm], boff, bits)][nb], data);
      AllowedNext(T(), k, ind, size);
      HeldRange(bc.b, bc.view, bc.disk.blocks, bp);
      ChangeHeld(bp, off, entry, k);
    }

    /** end_op of operation `k`. The last one out commits. */
    method EndOp(ghost k: nat)
      requires Valid() && k < |ops|
      modifies this, bc, bc.disk
      ensures Valid() && G() == old(G()) && Img() == old(Img()) && T() == Step(old(T()), End(k))
      ensures |old(ops)| > 1 ==> Now() == old(Now())
      ensures |old(ops)| == 1 ==>
                && Now() == After(old(Now()), CommitTrace(old(bc.disk.blocks), G(), old(List()), old(bc.view)))
                && Durable() == Img() && old(bc.disk.hist) <= bc.disk.hist
                && Trail(bc.disk.hist, |old(bc.disk.hist)|, G(), [old(Durable()), old(Img())])
    {
      hide Lru, Coherent, Loggable, Mask, Home, Reserved, CommitTrace;
      ReservedEmpty(size);
      StepReserved(T(), End(k), size);
      outstanding := outstanding - 1;
      assert !committing;        // panic("log: committing") is not reached
      if outstanding == 0 {
        committing := true;
        EmptyLog(bc.disk.blocks, G());
        CommitTrail(Now(), G(), List(), bc.view);
        CommitAll();
        committing := false;
        ops := [];
      } else {
        ops := Remove(ops, k);
      }
    }

    /** commit, seen from outside: the new contents become durable. */
    method CommitAll()
      requires Base() && Unreferenced() && Synced(List()) && Count(bc.disk.blocks[start]) == 0
      modifies this`n, bc, bc.disk
      ensures Base() && Unreferenced() && Synced([]) && n == 0 && Count(bc.disk.blocks[start]) == 0
      ensures Img() == old(Img()) == Home(bc.disk.blocks, G())
      ensures Now() == After(old(Now()), CommitTrace(old(bc.disk.blocks), G(), old(List()), old(bc.view)))
    {
      hide Lru, Coherent, CommitTrace;
      CommitEnd(bc.disk.blocks, G(), List(), bc.view);
      Commit();
      assert bc.view == bc.disk.blocks;
    }
  }
}
