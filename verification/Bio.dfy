/** The disk as atomic durable block steps (kernel/virtio_disk.c) and the LRU buffer cache
    of kernel/bio.c. The buffers are the elements of one static array, so a `struct buf *`
    is an index into it; index NBUF is the list sentinel `bcache.head`. */
module Bio {
  import opened Bytes

  const NBUF := 30
  const HEAD := NBUF

  class Disk {
    var blocks: seq<Block>
    ghost var hist: seq<seq<Block>>   // every disk state so far, the first and the present one included

    constructor (image: seq<Block>)
      ensures blocks == image && hist == [image] && Current()
    {
      blocks, hist := image, [image];
    }

    /** The history ends in the present state. */
    ghost predicate Current()
      reads this
    {
      hist != [] && hist[|hist| - 1] == blocks
    }

    /** virtio_disk_rw for a write: one atomic, durable step. */
    method Write(bn: nat, data: Block)
      requires bn < |blocks|
      modifies this
      ensures blocks == old(blocks)[bn := data] && hist == old(hist) + [blocks] && Current()
    {
      blocks := blocks[bn := data];
      hist := hist + [blocks];
    }
  }

  /** `ring` spells out a circular list: neighbours point at each other. */
  ghost predicate Linked(next: seq<nat>, prev: seq<nat>, ring: seq<nat>) {
    && |next| == |prev| == NBUF + 1
    && (forall i :: 0 <= i < |ring| ==> ring[i] <= HEAD)
    && (forall i {:trigger next[ring[i]]} :: 0 <= i < |ring| - 1 ==> next[ring[i]] == ring[i + 1])
    && (forall i {:trigger prev[ring[i]]} :: 1 <= i < |ring| ==> prev[ring[i]] == ring[i - 1])
  }

  /** `ring` runs from the sentinel back to it; `pos` is the position of each buffer, 0 if
      it is unlinked. */
  ghost predicate Placed(ring: seq<nat>, pos: seq<nat>) {
    && |pos| == NBUF && |ring| >= 2 && ring[0] == ring[|ring| - 1] == HEAD
    && (forall i :: 1 <= i < |ring| - 1 ==> ring[i] < NBUF && pos[ring[i]] == i)
    && (forall b :: 0 <= b < NBUF && pos[b] > 0 ==> pos[b] < |ring| - 1 && ring[pos[b]] == b)
  }

  ghost predicate IsRing(next: seq<nat>, prev: seq<nat>, ring: seq<nat>, pos: seq<nat>) {
    Placed(ring, pos) && Linked(next, prev, ring)
  }

  ghost function PosWithout(pos: seq<nat>, b: nat): seq<nat>
    requires b < |pos|
  {
    seq(|pos|, c requires 0 <= c < |pos| =>
      if c == b then 0 else if pos[c] > pos[b] then pos[c] - 1 else pos[c])
  }

  ghost function PosFront(pos: seq<nat>, b: nat): seq<nat>
    requires b < |pos|
  {
    seq(|pos|, c requires 0 <= c < |pos| =>
      if c == b then 1 else if pos[c] > 0 then pos[c] + 1 else 0)
  }

  ghost function Without(s: seq<nat>, k: nat): (r: seq<nat>)
    requires k < |s|
  {
    s[..k] + s[k + 1..]
  }

  /** The two pointer assignments of brelse take a node out of the ring. */
  lemma UnlinkRing(next: seq<nat>, prev: seq<nat>, ring: seq<nat>, pos: seq<nat>, b: nat)
    requires IsRing(next, prev, ring, pos) && b < NBUF && pos[b] > 0
    ensures next[b] <= HEAD && prev[b] <= HEAD
    ensures IsRing(next[prev[b] := next[b]], prev[next[b] := prev[b]], Without(ring, pos[b]), PosWithout(pos, b))
  {
    var k, r' := pos[b], Without(ring, pos[b]);
    assert next[ring[k]] == ring[k + 1] && prev[ring[k]] == ring[k - 1];
    forall i | 0 <= i < |r'| - 1
      ensures next[prev[b] := next[b]][r'[i]] == r'[i + 1]
      ensures prev[next[b] := prev[b]][r'[i + 1]] == r'[i]
    {
      UnlinkAt(next, prev, ring, pos, b, i);
    }
    UnlinkPos(ring, pos, b);
  }

  lemma UnlinkAt(next: seq<nat>, prev: seq<nat>, ring: seq<nat>, pos: seq<nat>, b: nat, i: nat)
    requires IsRing(next, prev, ring, pos) && b < NBUF && pos[b] > 0 && i < |ring| - 2
    ensures next[b] == ring[pos[b] + 1] <= HEAD && prev[b] == ring[pos[b] - 1] <= HEAD
    ensures var r' := Without(ring, pos[b]);
            next[prev[b] := next[b]][r'[i]] == r'[i + 1] && prev[next[b] := prev[b]][r'[i + 1]] == r'[i]
  {
    var k, j, r' := pos[b], if i < pos[b] then i else i + 1, Without(ring, pos[b]);
    assert r'[i] == ring[j] && r'[i + 1] == if i + 1 < k then ring[i + 1] else ring[i + 2];
    assert next[ring[k]] == ring[k + 1] && prev[ring[k]] == ring[k - 1];
    assert next[ring[j]] == ring[j + 1] && prev[ring[i + 2]] == ring[i + 1];
    assert i < k ==> prev[ring[i + 1]] == ring[i];
  }

  lemma UnlinkPos(ring: seq<nat>, pos: seq<nat>, b: nat)
    requires Placed(ring, pos) && b < NBUF && pos[b] > 0
    ensures Placed(Without(ring, pos[b]), PosWithout(pos, b))
  {
  }

  /** The list visits every buffer exactly once, ordered by last release to zero
      references, the most recent first. */
  ghost predicate Lru(next: seq<nat>, prev: seq<nat>, ring: seq<nat>, pos: seq<nat>, stamp: seq<nat>, clock: nat) {
    && IsRing(next, prev, ring, pos) && |ring| == NBUF + 2
    && (forall b :: 0 <= b < NBUF ==> pos[b] > 0)
    && Ordered(pos, stamp, clock)
  }

  ghost predicate Ordered(pos: seq<nat>, stamp: seq<nat>, clock: nat) {
    && |pos| == |stamp| == NBUF
    && (forall b :: 0 <= b < NBUF ==> stamp[b] < clock)
    && (forall b, c {:trigger stamp[b], stamp[c]} ::
          0 <= b < NBUF && 0 <= c < NBUF && pos[b] < pos[c] ==> stamp[b] > stamp[c])
  }

  lemma OrderedFront(pos: seq<nat>, stamp: seq<nat>, clock: nat, i: nat)
    requires Ordered(pos, stamp, clock) && i < NBUF && forall b :: 0 <= b < NBUF ==> pos[b] > 0
    ensures Ordered(PosFront(PosWithout(pos, i), i), stamp[i := clock], clock + 1)
    ensures forall b :: 0 <= b < NBUF ==> PosFront(PosWithout(pos, i), i)[b] > 0
  {
  }

  /** The pointer assignments that link buffer `b` in after the sentinel. */
  lemma FrontRing(next: seq<nat>, prev: seq<nat>, ring: seq<nat>, pos: seq<nat>, b: nat)
    requires IsRing(next, prev, ring, pos) && b < NBUF && pos[b] == 0
    ensures next[HEAD] == ring[1] <= HEAD
    ensures IsRing(next[b := ring[1]][HEAD := b], prev[b := HEAD][ring[1] := b], [HEAD, b] + ring[1..],
                   PosFront(pos, b))
  {
    assert next[ring[0]] == ring[1];
    var n', p', r' := next[b := ring[1]][HEAD := b], prev[b := HEAD][ring[1] := b], [HEAD, b] + ring[1..];
    forall i | 0 <= i < |r'| - 1 ensures n'[r'[i]] == r'[i + 1] && p'[r'[i + 1]] == r'[i] {
      if i >= 2 {
        assert next[ring[i - 1]] == ring[i] && prev[ring[i]] == ring[i - 1];
        assert r'[i] == ring[i - 1] && r'[i + 1] == ring[i];
      }
    }
    FrontPos(ring, pos, b);
  }

  lemma FrontPos(ring: seq<nat>, pos: seq<nat>, b: nat)
    requires Placed(ring, pos) && b < NBUF && pos[b] == 0
    ensures Placed([HEAD, b] + ring[1..], PosFront(pos, b))
  {
  }

  /** The `struct buf` fields of the cache, one sequence per field. */
  datatype Bufs = Bufs(
    valid: seq<bool>,      // the data has been read from the disk
    disk: seq<bool>,       // dirty: logged by an open transaction
    blockno: seq<nat>,
    refcnt: seq<nat>,
    data: seq<Block>)

  /** Every block number >= 1 is cached at most once. */
  ghost predicate Unique(blockno: seq<nat>, n: nat) {
    && |blockno| == NBUF
    && (forall i :: 0 <= i < NBUF ==> blockno[i] == 0 || blockno[i] < n)
    && (forall i, j {:trigger blockno[i], blockno[j]} ::
          0 <= i < NBUF && 0 <= j < NBUF && blockno[i] == blockno[j] != 0 ==> i == j)
  }

  /** Buffers tagged 0 are idle; dirty buffers, and referenced ones except the one that bget
      has just retagged, are loaded. */
  ghost predicate Flags(blockno: seq<nat>, refcnt: seq<nat>, valid: seq<bool>, disk: seq<bool>, except: int) {
    && |blockno| == |refcnt| == |valid| == |disk| == NBUF
    && (forall i :: 0 <= i < NBUF && blockno[i] == 0 ==> refcnt[i] == 0 && !valid[i] && !disk[i])
    && (forall i :: 0 <= i < NBUF && disk[i] ==> valid[i])
    && (forall i :: 0 <= i < NBUF && refcnt[i] > 0 && i != except ==> valid[i])
  }

  /** Cached data is the view. */
  ghost predicate Cached(blockno: seq<nat>, valid: seq<bool>, data: seq<Block>, view: seq<Block>) {
    && |blockno| == |valid| == |data| == NBUF
    && (forall i :: 0 <= i < NBUF && valid[i] ==> blockno[i] < |view| && data[i] == view[blockno[i]])
  }

  /** Buffer `i` keeps block `bn` from being recycled. */
  ghost predicate Pins(b: Bufs, i: nat, bn: nat)
    requires |b.blockno| == |b.refcnt| == |b.valid| == |b.disk| == NBUF
  {
    i < NBUF && b.blockno[i] == bn && b.valid[i] && (b.disk[i] || b.refcnt[i] > 0)
  }

  /** A block whose view differs from the disk is pinned in the cache. */
  ghost predicate Pinned(b: Bufs, view: seq<Block>, blocks: seq<Block>)
    requires |b.blockno| == |b.refcnt| == |b.valid| == |b.disk| == NBUF
  {
    && |view| == |blocks|
    && (forall bn :: 1 <= bn < |view| && view[bn] != blocks[bn] ==> exists i :: Pins(b, i, bn))
  }

  ghost predicate Coherent(b: Bufs, view: seq<Block>, blocks: seq<Block>, except: int := -1) {
    && Unique(b.blockno, |view|)
    && Flags(b.blockno, b.refcnt, b.valid, b.disk, except)
    && Cached(b.blockno, b.valid, b.data, view)
    && Pinned(b, view, blocks)
  }

  /** A buffer that bget may recycle: unreferenced and not part of an open transaction. */
  predicate Recyclable(b: Bufs, i: nat)
    requires i < |b.refcnt| && i < |b.disk|
  {
    b.refcnt[i] == 0 && !b.disk[i]
  }

  /** The steps of the cache on its contents, and what they keep. */
  lemma RefOk(b: Bufs, view: seq<Block>, blocks: seq<Block>, i: nat)
    requires Coherent(b, view, blocks) && i < NBUF && b.blockno[i] >= 1
    ensures Coherent(b.(refcnt := b.refcnt[i := b.refcnt[i] + 1]), view, blocks, i)
  {
    var b' := b.(refcnt := b.refcnt[i := b.refcnt[i] + 1]);
    forall bn | 1 <= bn < |view| && view[bn] != blocks[bn] ensures exists j :: Pins(b', j, bn) {
      var j :| Pins(b, j, bn);
      assert Pins(b', j, bn);
    }
  }

  lemma RetagOk(b: Bufs, view: seq<Block>, blocks: seq<Block>, i: nat, bn: nat)
    requires Coherent(b, view, blocks) && i < NBUF && Recyclable(b, i)
    requires 1 <= bn < |view| && forall j :: 0 <= j < NBUF ==> b.blockno[j] != bn
    ensures Coherent(b.(blockno := b.blockno[i := bn], valid := b.valid[i := false], refcnt := b.refcnt[i := 1]), view,
                     blocks, i)
  {
    var b' := b.(blockno := b.blockno[i := bn], valid := b.valid[i := false], refcnt := b.refcnt[i := 1]);
    forall n | 1 <= n < |view| && view[n] != blocks[n] ensures exists j :: Pins(b', j, n) {
      var j :| Pins(b, j, n);
      assert Pins(b', j, n);
    }
  }

  /** A buffer becomes valid with the block read from the disk. */
  lemma LoadOk(b: Bufs, view: seq<Block>, blocks: seq<Block>, i: nat)
    requires Coherent(b, view, blocks, i) && i < NBUF && b.blockno[i] >= 1 && !b.valid[i]
    ensures Coherent(b.(data := b.data[i := blocks[b.blockno[i]]], valid := b.valid[i := true]), view, blocks)
  {
    var b' := b.(data := b.data[i := blocks[b.blockno[i]]], valid := b.valid[i := true]);
    assert forall j :: !Pins(b, j, b.blockno[i]);
    assert view[b.blockno[i]] == blocks[b.blockno[i]];
    forall n | 1 <= n < |view| && view[n] != blocks[n] ensures exists j :: Pins(b', j, n) {
      var j :| Pins(b, j, n);
      assert Pins(b', j, n);
    }
  }

  lemma ModifyOk(b: Bufs, view: seq<Block>, blocks: seq<Block>, i: nat, data: Block)
    requires Coherent(b, view, blocks) && i < NBUF && b.refcnt[i] > 0
    ensures 1 <= b.blockno[i] < |view|
    ensures Coherent(b.(data := b.data[i := data]), view[b.blockno[i] := data], blocks)
  {
    var b', v' := b.(data := b.data[i := data]), view[b.blockno[i] := data];
    forall n | 1 <= n < |v'| && v'[n] != blocks[n] ensures exists j :: Pins(b', j, n) {
      if n == b.blockno[i] {
        assert Pins(b', i, n);
      } else {
        var j :| Pins(b, j, n);
        assert Pins(b', j, n);
      }
    }
  }

  lemma MarkOk(b: Bufs, view: seq<Block>, blocks: seq<Block>, i: nat)
    requires Coherent(b, view, blocks) && i < NBUF && b.refcnt[i] > 0
    ensures Coherent(b.(disk := b.disk[i := true]), view, blocks)
  {
    var b' := b.(disk := b.disk[i := true]);
    forall n | 1 <= n < |view| && view[n] != blocks[n] ensures exists j :: Pins(b', j, n) {
      var j :| Pins(b, j, n);
      assert Pins(b', j, n);
    }
  }

  lemma WriteBackOk(b: Bufs, view: seq<Block>, blocks: seq<Block>, i: nat)
    requires Coherent(b, view, blocks) && i < NBUF && b.refcnt[i] > 0
    ensures 1 <= b.blockno[i] < |view|
    ensures Coherent(b.(disk := b.disk[i := false]), view, blocks[b.blockno[i] := b.data[i]])
  {
    var b', bl := b.(disk := b.disk[i := false]), blocks[b.blockno[i] := b.data[i]];
    forall n | 1 <= n < |view| && view[n] != bl[n] ensures exists j :: Pins(b', j, n) {
      var j :| Pins(b, j, n);
      assert Pins(b', j, n);
    }
  }

  lemma UnrefOk(b: Bufs, view: seq<Block>, blocks: seq<Block>, i: nat)
    requires Coherent(b, view, blocks) && i < NBUF && b.refcnt[i] > 0
    requires b.refcnt[i] > 1 || b.disk[i] || view[b.blockno[i]] == blocks[b.blockno[i]]
    ensures Coherent(b.(refcnt := b.refcnt[i := b.refcnt[i] - 1]), view, blocks)
  {
    var b' := b.(refcnt := b.refcnt[i := b.refcnt[i] - 1]);
    forall n | 1 <= n < |view| && view[n] != blocks[n] ensures exists j :: Pins(b', j, n) {
      var j :| Pins(b, j, n);
      assert Pins(b', j, n);
    }
  }

  /** A referenced buffer holds a real block. */
  lemma HeldRange(b: Bufs, view: seq<Block>, blocks: seq<Block>, i: nat)
    requires Coherent(b, view, blocks) && i < NBUF && b.refcnt[i] > 0
    ensures |b.data| == |b.disk| == |b.blockno| == |b.refcnt| == NBUF && |view| == |blocks|
    ensures 1 <= b.blockno[i] < |view| && b.data[i] == view[b.blockno[i]]
  {
  }

  class BCache {
    const disk: Disk
    var b: Bufs
    var next: seq<nat>                // the list links, index HEAD being the sentinel's
    var prev: seq<nat>

    ghost var ring: seq<nat>          // HEAD, the NBUF buffers from MRU to LRU, HEAD
    ghost var pos: seq<nat>
    ghost var stamp: seq<nat>         // when each buffer was last released to zero references
    ghost var clock: nat
    ghost var view: seq<Block>        // what a bread returns

    ghost predicate Valid()
      reads this, disk
    {
      && Lru(next, prev, ring, pos, stamp, clock)
      && Coherent(b, view, disk.blocks) && disk.Current()
    }

    /** Link buffer `i` in right after the sentinel. */
    method InsertFront(i: nat)
      requires IsRing(next, prev, ring, pos) && i < NBUF && pos[i] == 0
      modifies this`next, this`prev, this`ring, this`pos
      ensures IsRing(next, prev, ring, pos)
      ensures ring == [HEAD, i] + old(ring)[1..] && pos == PosFront(old(pos), i)
    {
      FrontRing(next, prev, ring, pos, i);
      next := next[i := next[HEAD]];
      prev := prev[i := HEAD];
      prev := prev[next[HEAD] := i];
      next := next[HEAD := i];
      ring, pos := [HEAD, i] + ring[1..], PosFront(pos, i);
    }

    /** Take buffer `i` out of the list. */
    method Unlink(i: nat)
      requires IsRing(next, prev, ring, pos) && i < NBUF && pos[i] > 0
      modifies this`next, this`prev, this`ring, this`pos
      ensures IsRing(next, prev, ring, pos)
      ensures ring == Without(old(ring), old(pos[i])) && pos == PosWithout(old(pos), i)
    {
      UnlinkRing(next, prev, ring, pos, i);
      prev := prev[next[i] := prev[i]];
      next := next[prev[i] := next[i]];
      ring, pos := Without(ring, pos[i]), PosWithout(pos, i);
    }

    /** The zeroed static storage, then binit. */
    constructor (d: Disk)
      requires d.Current()
      ensures Valid() && disk == d && view == d.blocks
      ensures forall i :: 0 <= i < NBUF ==> b.refcnt[i] == 0 && !b.disk[i]
    {
      disk := d;
      view := d.blocks;
      b := Bufs(seq(NBUF, _ => false), seq(NBUF, _ => false), seq(NBUF, _ => 0), seq(NBUF, _ => 0),
        seq(NBUF, _ => Zeros(BSIZE)));
      next, prev := [], [];
      new;
      Binit();
    }

    method Binit()
      requires |b.valid| == |b.disk| == |b.refcnt| == NBUF
      modifies this`b, this`next, this`prev, this`ring, this`pos, this`stamp, this`clock
      ensures Lru(next, prev, ring, pos, stamp, clock)
      ensures b == old(b).(valid := b.valid, disk := b.disk, refcnt := b.refcnt)
      ensures |b.valid| == |b.disk| == |b.refcnt| == NBUF
      ensures forall c :: 0 <= c < NBUF ==> !b.valid[c] && !b.disk[c] && b.refcnt[c] == 0
    {
      next := seq(NBUF + 1, _ => 0)[HEAD := HEAD];
      prev := seq(NBUF + 1, _ => 0)[HEAD := HEAD];
      ring, pos := [HEAD, HEAD], seq(NBUF, _ => 0);
      for i := 0 to NBUF
        invariant IsRing(next, prev, ring, pos) && |ring| == i + 2
        invariant forall c :: 0 <= c < NBUF ==> pos[c] == if c < i then i - c else 0
        invariant b == old(b).(valid := b.valid, disk := b.disk, refcnt := b.refcnt)
        invariant |b.valid| == |b.disk| == |b.refcnt| == NBUF
        invariant forall c :: 0 <= c < i ==> !b.valid[c] && !b.disk[c] && b.refcnt[c] == 0
      {
        InsertFront(i);
        b := b.(valid := b.valid[i := false], disk := b.disk[i := false], refcnt := b.refcnt[i := 0]);
      }
      stamp, clock := seq(NBUF, i => i), NBUF;
    }

    /** The forward walk of bget: the buffer that caches `bn`. */
    method Find(bn: nat) returns (i: nat)
      requires Lru(next, prev, ring, pos, stamp, clock) && Unique(b.blockno, |view|) && bn >= 1
      ensures i <= HEAD
      ensures i == HEAD ==> forall j :: 0 <= j < NBUF ==> b.blockno[j] != bn
      ensures i < HEAD ==> b.blockno[i] == bn
    {
      i := next[HEAD];
      ghost var k := 1;
      assert next[ring[0]] == ring[1];
      while i != HEAD
        invariant 1 <= k <= NBUF + 1 && i == ring[k]
        invariant forall j :: 0 <= j < NBUF && pos[j] < k ==> b.blockno[j] != bn
        decreases NBUF + 1 - k
      {
        if b.blockno[i] == bn { return; }
        i := next[i];
        k := k + 1;
      }
    }

    /** The backward walk of bget: the least recently released recyclable buffer. */
    method Victim() returns (i: nat)
      requires Lru(next, prev, ring, pos, stamp, clock) && |b.refcnt| == |b.disk| == NBUF
      ensures i <= HEAD
      ensures i == HEAD ==> forall j :: 0 <= j < NBUF ==> !Recyclable(b, j)
      ensures i != HEAD ==> Recyclable(b, i) &&
                            forall j :: 0 <= j < NBUF && Recyclable(b, j) ==> stamp[i] <= stamp[j]
    {
      i := prev[HEAD];
      ghost var k := NBUF;
      assert prev[ring[NBUF + 1]] == ring[NBUF];
      while i != HEAD
        invariant 0 <= k <= NBUF && i == ring[k]
        invariant forall j :: 0 <= j < NBUF && k < pos[j] ==> !Recyclable(b, j)
        decreases k
      {
        if b.refcnt[i] == 0 && !b.disk[i] { return; }
        i := prev[i];
        k := k - 1;
      }
    }

    /** Block `bn` is cached, or a buffer can be recycled for it: otherwise bget panics with
        "no buffers". */
    ghost predicate Available(bn: nat)
      reads this
    {
      && |b.blockno| == |b.refcnt| == |b.disk| == NBUF
      && exists j :: 0 <= j < NBUF && (b.blockno[j] == bn || Recyclable(b, j))
    }

    /** bget: the buffer of block `bn`, or else the least recently released recyclable one,
        retagged. */
    method Bget(bn: nat) returns (i: nat)
      requires Valid() && 1 <= bn < |view| && Available(bn)
      modifies this`b
      ensures i < NBUF && Coherent(b, view, disk.blocks, i)
      ensures b == old(b).(blockno := old(b).blockno[i := bn], valid := b.valid,
                           refcnt := old(b).refcnt[i := old(b).refcnt[i] + 1])
      ensures if exists j :: 0 <= j < NBUF && old(b).blockno[j] == bn
              then old(b).blockno[i] == bn && b.valid == old(b).valid
              else && Recyclable(old(b), i) && !b.valid[i]
                   && (forall j :: 0 <= j < NBUF && Recyclable(old(b), j) ==> stamp[i] <= stamp[j])
    {
      hide Cached, Pinned, Lru, IsRing, Ordered;
      i := Find(bn);
      if i != HEAD {
        RefOk(b, view, disk.blocks, i);
        b := b.(refcnt := b.refcnt[i := b.refcnt[i] + 1]);
      } else {
        i := Victim();
        RetagOk(b, view, disk.blocks, i, bn);
        b := b.(blockno := b.blockno[i := bn], valid := b.valid[i := false], refcnt := b.refcnt[i := 1]);
      }
    }

    /** bread: a referenced buffer with the block's current contents. It may recycle a buffer,
        but neither what any later bread returns, nor the disk, nor a referenced or dirty
        buffer changes. */
    method Bread(bn: nat) returns (i: nat)
      requires Valid() && 1 <= bn < |view| && Available(bn)
      modifies this`b
      ensures Valid() && i < NBUF && b.blockno[i] == bn && b.data[i] == view[bn] && b.valid[i]
      ensures b.disk == old(b).disk
      ensures b.refcnt == old(b).refcnt[i := old(b).refcnt[i] + 1]
      ensures forall j :: 0 <= j < NBUF && j != i ==> b.blockno[j] == old(b).blockno[j]
      ensures old(b).blockno[i] == bn || Recyclable(old(b), i)
      ensures old(b).refcnt[i] == 0 ==> b.disk[i] || view[bn] == disk.blocks[bn]
    {
      assert view[bn] != disk.blocks[bn] ==> exists j :: Pins(b, j, bn);
      i := Bget(bn);
      if !b.valid[i] {
        LoadOk(b, view, disk.blocks, i);
        b := b.(data := b.data[i := disk.blocks[b.blockno[i]]], valid := b.valid[i := true],
                disk := b.disk[i := false]);
        assert b.disk == old(b).disk;
      }
    }

    /** The byte-copy loops of the callers: `for(k...) b->data[off+k] = src[k]`. */
    method Copy(i: nat, off: nat, src: seq<byte>)
      requires i < |b.data| && off + |src| <= BSIZE
      modifies this`b
      ensures b == old(b).(data := old(b).data[i := Overlay(old(b).data[i], off, src)])
    {
      ghost var d0 := b.data[i];
      var k := 0;
      assert Overlay(d0, off, src[..0]) == d0;
      while k < |src|
        invariant 0 <= k <= |src|
        invariant b == old(b).(data := old(b).data[i := Overlay(d0, off, src[..k])])
      {
        b := b.(data := b.data[i := b.data[i][off + k := src[k]]]);
        assert b.data[i] == Overlay(d0, off, src[..k + 1]);
        k := k + 1;
      }
      assert src[..k] == src;
    }

    /** An in-place change of a referenced buffer. */
    method Fill(i: nat, off: nat, src: seq<byte>)
      requires Valid() && i < NBUF && b.refcnt[i] > 0 && off + |src| <= BSIZE
      modifies this`b, this`view
      ensures Valid() && 1 <= b.blockno[i] < |old(view)|
      ensures b == old(b).(data := old(b).data[i := Overlay(old(b).data[i], off, src)])
      ensures view == old(view)[b.blockno[i] := Overlay(old(view)[b.blockno[i]], off, src)]
    {
      ModifyOk(b, view, disk.blocks, i, Overlay(b.data[i], off, src));
      Copy(i, off, src);
      view := view[b.blockno[i] := b.data[i]];
    }

    /** bwrite: the buffer goes to the disk in one step and is clean afterwards. */
    method Bwrite(i: nat)
      requires Valid() && i < NBUF && b.refcnt[i] > 0
      modifies this`b, disk
      ensures Valid() && 1 <= b.blockno[i] < |view|
      ensures b == old(b).(disk := old(b).disk[i := false])
      ensures disk.blocks == old(disk.blocks)[b.blockno[i] := view[b.blockno[i]]]
      ensures disk.hist == old(disk.hist) + [disk.blocks]
    {
      WriteBackOk(b, view, disk.blocks, i);
      disk.Write(b.blockno[i], b.data[i]);
      b := b.(disk := b.disk[i := false]);
    }

    /** The assignment `b->disk = 1` of log_write. */
    method MarkDirty(i: nat)
      requires Valid() && i < NBUF && b.refcnt[i] > 0
      modifies this`b
      ensures Valid() && b == old(b).(disk := old(b).disk[i := true])
    {
      MarkOk(b, view, disk.blocks, i);
      b := b.(disk := b.disk[i := true]);
    }

    method MoveFront(i: nat)
      requires Lru(next, prev, ring, pos, stamp, clock) && i < NBUF
      modifies this`next, this`prev, this`ring, this`pos, this`stamp, this`clock
      ensures Lru(next, prev, ring, pos, stamp, clock)
      ensures ring == [HEAD, i] + Without(old(ring), old(pos[i]))[1..]
      ensures stamp == old(stamp)[i := old(clock)] && clock == old(clock) + 1
    {
      OrderedFront(pos, stamp, clock, i);
      Unlink(i);
      InsertFront(i);
      stamp, clock := stamp[i := clock], clock + 1;
    }

    /** brelse: one reference less; at zero the buffer becomes the most recently used. A buffer
        may not be dropped while it holds changes that are neither logged nor on the disk. */
    method Brelse(i: nat)
      requires Valid() && i < NBUF && b.refcnt[i] > 0
      requires b.refcnt[i] > 1 || b.disk[i] || view[b.blockno[i]] == disk.blocks[b.blockno[i]]
      modifies this`b, this`next, this`prev, this`ring, this`pos, this`stamp, this`clock
      ensures Valid() && b == old(b).(refcnt := old(b).refcnt[i := old(b).refcnt[i] - 1])
      ensures if b.refcnt[i] > 0 then ring == old(ring) && stamp == old(stamp) && clock == old(clock)
              else ring == [HEAD, i] + Without(old(ring), old(pos[i]))[1..] && stamp == old(stamp)[i := old(clock)]
                   && clock == old(clock) + 1
    {
      UnrefOk(b, view, disk.blocks, i);
      b := b.(refcnt := b.refcnt[i := b.refcnt[i] - 1]);
      if b.refcnt[i] == 0 {
        MoveFront(i);
      }
    }
  }
}
