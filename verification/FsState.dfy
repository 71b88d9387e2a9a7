/** Block ownership and file contents, as functions of the block image `V` and the inode
    table `T`. */
module FsState {
  import opened Bytes
  import opened FsSpec

  /** Pointer `s` of inode `i`: direct, the indirect root, or an indirect entry. */
  datatype Slot = Slot(i: nat, s: nat)

  function Word(b: Block, j: nat): nat
    requires j < NINDIRECT
  {
    Get(b, 4 * j, 4)
  }

  function Ptr(V: seq<Block>, d: Dinode, s: nat): nat
    requires |d.addrs| == NDIRECT + 1 && s < NPTR
  {
    if s <= ROOT then d.addrs[s]
    else if 0 < d.addrs[ROOT] < |V| then Word(V[d.addrs[ROOT]], s - ROOT - 1)
    else 0
  }

  /** The pointer slot of file block `bn`. */
  function SlotOf(bn: nat): nat {
    if bn < NDIRECT then bn else bn + 1
  }

  /** Byte `k` of a file; holes read as zero. */
  function FileByte(V: seq<Block>, d: Dinode, k: nat): byte
    requires |d.addrs| == NDIRECT + 1 && k < MAXBYTES
  {
    var p := Ptr(V, d, SlotOf(k / BSIZE));
    if 0 < p < |V| then V[p][k % BSIZE] else 0
  }

  function Content(V: seq<Block>, d: Dinode): (c: seq<byte>)
    requires |d.addrs| == NDIRECT + 1 && d.size <= MAXBYTES
    ensures |c| == d.size
  {
    seq(d.size, k requires 0 <= k < d.size => FileByte(V, d, k))
  }

  ghost predicate WfTable(T: seq<Dinode>) {
    forall i {:trigger T[i]} :: 0 <= i < |T| ==> WfDinode(T[i]) && T[i].size <= MAXBYTES
  }

  /** Every pointer owns its block alone, and `owner` says which pointer that is. */
  ghost predicate Owned(sb: Superblock, V: seq<Block>, T: seq<Dinode>, owner: map<nat, Slot>) {
    && |V| >= sb.size && WfTable(T)
    && (forall b {:trigger owner[b]} :: b in owner ==>
          DataStart(sb) <= b < sb.size && owner[b].i < |T| && owner[b].s < NPTR
          && Ptr(V, T[owner[b].i], owner[b].s) == b)
    && (forall i, s {:trigger Ptr(V, T[i], s)} :: 0 <= i < |T| && 0 <= s < NPTR && Ptr(V, T[i], s) != 0 ==>
          Ptr(V, T[i], s) in owner && owner[Ptr(V, T[i], s)] == Slot(i, s))
  }

  /** The bitmap marks exactly the metadata and the blocks of `used`. */
  ghost predicate Bits(sb: Superblock, m: Block, used: set<nat>) {
    && sb.size <= BPB
    && (forall b {:trigger Used(m, b)} :: 0 <= b < sb.size ==> (Used(m, b) <==> b < DataStart(sb) || b in used))
    && (forall b :: b in used ==> DataStart(sb) <= b < sb.size)
  }

  /** The inodes on disk are `T`, except perhaps inode `ex`. */
  ghost predicate Table(sb: Superblock, V: seq<Block>, T: seq<Dinode>, ex: int) {
    && SbOk(sb) && |T| == sb.ninodes && |V| >= sb.size
    && (forall i {:trigger T[i]} :: 0 <= i < |T| && i != ex ==> DiskInode(sb, V, i) == T[i])
  }

  /** No file reads differently. */
  ghost predicate SameFiles(V: seq<Block>, T: seq<Dinode>, V': seq<Block>, T': seq<Dinode>) {
    && |T'| == |T| && (forall i {:trigger T'[i]} :: 0 <= i < |T| ==> |T[i].addrs| == |T'[i].addrs| == NDIRECT + 1)
    && (forall i, k {:trigger FileByte(V', T'[i], k)} :: 0 <= i < |T| && 0 <= k < MAXBYTES ==>
          FileByte(V', T'[i], k) == FileByte(V, T[i], k))
  }

  lemma SameRefl(sb: Superblock, V: seq<Block>, T: seq<Dinode>, owner: map<nat, Slot>)
    requires Owned(sb, V, T, owner)
    ensures SameFiles(V, T, V, T)
  {
  }

  lemma SameTrans(V: seq<Block>, T: seq<Dinode>, V1: seq<Block>, T1: seq<Dinode>, V2: seq<Block>, T2: seq<Dinode>)
    requires SameFiles(V, T, V1, T1) && SameFiles(V1, T1, V2, T2)
    ensures SameFiles(V, T, V2, T2)
  {
    hide FileByte;
  }

  /** The pointers are those of before, but for pointer `s` of inode `i`, which is now `b`. */
  ghost predicate OnePtr(V: seq<Block>, T: seq<Dinode>, V': seq<Block>, T': seq<Dinode>, i: nat, s: nat, b: nat) {
    && |T'| == |T| && (forall j {:trigger T'[j]} :: 0 <= j < |T| ==> |T[j].addrs| == |T'[j].addrs| == NDIRECT + 1)
    && (forall j, t {:trigger Ptr(V', T'[j], t)} :: 0 <= j < |T| && 0 <= t < NPTR ==>
          Ptr(V', T'[j], t) == if j == i && t == s then b else Ptr(V, T[j], t))
  }

  lemma OwnMore(sb: Superblock, V: seq<Block>, T: seq<Dinode>, owner: map<nat, Slot>, V': seq<Block>, T': seq<Dinode>,
      i: nat, s: nat, b: nat)
    requires Owned(sb, V, T, owner) && OnePtr(V, T, V', T', i, s, b) && |V'| == |V| && WfTable(T')
    requires i < |T| && s < NPTR && Ptr(V, T[i], s) == 0 && DataStart(sb) <= b < sb.size && b !in owner
    ensures Owned(sb, V', T', owner[b := Slot(i, s)])
  {
    hide Ptr;
    var o' := owner[b := Slot(i, s)];
    forall c | c in o'
      ensures DataStart(sb) <= c < sb.size && o'[c].i < |T'| && o'[c].s < NPTR && Ptr(V', T'[o'[c].i], o'[c].s) == c
    {
      if c != b { assert Ptr(V, T[owner[c].i], owner[c].s) == c; }
    }
    forall j, t | 0 <= j < |T| && 0 <= t < NPTR && Ptr(V', T'[j], t) != 0
      ensures Ptr(V', T'[j], t) in o' && o'[Ptr(V', T'[j], t)] == Slot(j, t)
    {
      assert Ptr(V, T[j], t) != b;
    }
  }

  /** Writing a block that nobody owns changes no pointer and no file byte. */
  lemma UnownedWrite(sb: Superblock, V: seq<Block>, T: seq<Dinode>, owner: map<nat, Slot>, b: nat, data: Block)
    requires Owned(sb, V, T, owner) && b < |V| && b !in owner
    ensures Owned(sb, V[b := data], T, owner)
    ensures forall i, s :: 0 <= i < |T| && 0 <= s < NPTR ==> Ptr(V[b := data], T[i], s) == Ptr(V, T[i], s)
    ensures SameFiles(V, T, V[b := data], T)
  {
    var V' := V[b := data];
    forall i, s | 0 <= i < |T| && 0 <= s < NPTR ensures Ptr(V', T[i], s) == Ptr(V, T[i], s) {
      assert Ptr(V, T[i], ROOT) == T[i].addrs[ROOT];
    }
    forall i, k | 0 <= i < |T| && 0 <= k < MAXBYTES ensures FileByte(V', T[i], k) == FileByte(V, T[i], k) {
      var p := Ptr(V, T[i], SlotOf(k / BSIZE));
      assert Ptr(V', T[i], SlotOf(k / BSIZE)) == p;
    }
  }

  lemma WordPut(b: Block, j: nat, v: nat, k: nat)
    requires j < NINDIRECT && k < NINDIRECT && v < U32
    ensures Word(Put(b, 4 * j, 4, v), k) == if k == j then v else Word(b, k)
  {
    assert Pow256(4) == U32;
    GetPutSame(b, 4 * j, 4, v);
    if k != j { GetOverlayOther(b, 4 * j, Enc(v, 4), 4 * k, 4); }
  }

  /** Linking a zeroed block as a direct block or as the indirect root. */
  lemma LinkDirect(sb: Superblock, V: seq<Block>, T: seq<Dinode>, owner: map<nat, Slot>, i: nat, s: nat, b: nat)
    requires Owned(sb, V, T, owner) && sb.size <= BPB && i < |T| && s <= ROOT && T[i].addrs[s] == 0
    requires DataStart(sb) <= b < sb.size && b !in owner && V[b] == Zeros(BSIZE)
    ensures var T' := T[i := T[i].(addrs := T[i].addrs[s := b])];
            && Owned(sb, V, T', owner[b := Slot(i, s)])
            && SameFiles(V, T, V, T')
  {
    var T' := T[i := T[i].(addrs := T[i].addrs[s := b])];
    assert Ptr(V, T[i], s) == 0;
    forall t | 0 <= t < NPTR ensures Ptr(V, T'[i], t) == if t == s then b else Ptr(V, T[i], t) {
      if s == ROOT && t > ROOT { DecZeros(V[b][4 * (t - ROOT - 1)..4 * (t - ROOT - 1) + 4]); }
    }
    OwnMore(sb, V, T, owner, V, T', i, s, b);
    forall j, k | 0 <= j < |T| && 0 <= k < MAXBYTES ensures FileByte(V, T'[j], k) == FileByte(V, T[j], k) {
      var t := SlotOf(k / BSIZE);
      assert Ptr(V, T'[j], t) == if j == i && t == s then b else Ptr(V, T[j], t);
    }
  }

  /** Linking a zeroed block through an entry of the indirect block `r`. */
  lemma LinkEntry(sb: Superblock, V: seq<Block>, T: seq<Dinode>, owner: map<nat, Slot>, i: nat, e: nat, b: nat, r: nat)
    requires Owned(sb, V, T, owner) && sb.size <= BPB && i < |T| && e < NINDIRECT
    requires 0 != r == T[i].addrs[ROOT] && Ptr(V, T[i], ROOT + 1 + e) == 0
    requires DataStart(sb) <= b < sb.size && b !in owner && V[b] == Zeros(BSIZE)
    ensures DataStart(sb) <= r < sb.size && r != b
    ensures Owned(sb, V[r := Put(V[r], 4 * e, 4, b)], T, owner[b := Slot(i, ROOT + 1 + e)])
    ensures SameFiles(V, T, V[r := Put(V[r], 4 * e, 4, b)], T)
    ensures Ptr(V[r := Put(V[r], 4 * e, 4, b)], T[i], ROOT + 1 + e) == b
  {
    assert Ptr(V, T[i], ROOT) == r && owner[r] == Slot(i, ROOT);
    hide Word, Put, FileByte;
    var V' := V[r := Put(V[r], 4 * e, 4, b)];
    LinkEntryPtrs(sb, V, T, owner, i, e, b, r);
    OwnMore(sb, V, T, owner, V', T, i, ROOT + 1 + e, b);
    forall j, k | 0 <= j < |T| && 0 <= k < MAXBYTES ensures FileByte(V', T[j], k) == FileByte(V, T[j], k) {
      var t := SlotOf(k / BSIZE);
      assert Ptr(V', T[j], t) == if j == i && t == ROOT + 1 + e then b else Ptr(V, T[j], t);
      LinkByte(sb, V, T, owner, V', i, b, r, j, k);
    }
  }

  /** A byte of a file after the link: its block is not the indirect block, and a new block is zero. */
  lemma LinkByte(sb: Superblock, V: seq<Block>, T: seq<Dinode>, owner: map<nat, Slot>, V': seq<Block>, i: nat, b: nat,
      r: nat, j: nat, k: nat)
    requires Owned(sb, V, T, owner) && j < |T| && k < MAXBYTES && b !in owner && b < |V| && V[b] == Zeros(BSIZE)
    requires r in owner && owner[r] == Slot(i, ROOT) && |V'| == |V|
             && forall c :: 0 <= c < |V| && c != r ==> V'[c] == V[c]
    requires var p, p' := Ptr(V, T[j], SlotOf(k / BSIZE)),
             Ptr(V', T[j], SlotOf(k / BSIZE)); p' == p || (p == 0 && p' == b)
    ensures FileByte(V', T[j], k) == FileByte(V, T[j], k)
  {
    hide Ptr;
    var p := Ptr(V, T[j], SlotOf(k / BSIZE));
    assert p != 0 ==> p in owner && owner[p] == Slot(j, SlotOf(k / BSIZE));
    assert b != r;
  }

  lemma LinkEntryPtrs(sb: Superblock, V: seq<Block>, T: seq<Dinode>, owner: map<nat, Slot>, i: nat, e: nat, b: nat,
      r: nat)
    requires Owned(sb, V, T, owner) && i < |T| && e < NINDIRECT && b < U32
    requires 0 < r == T[i].addrs[ROOT] < |V| && r in owner && owner[r] == Slot(i, ROOT)
    ensures forall j, t :: 0 <= j < |T| && 0 <= t < NPTR ==>
              Ptr(V[r := Put(V[r], 4 * e, 4, b)], T[j], t) ==
              if j == i && t == ROOT + 1 + e then b else Ptr(V, T[j], t)
  {
    var V' := V[r := Put(V[r], 4 * e, 4, b)];
    forall j, t | 0 <= j < |T| && 0 <= t < NPTR
      ensures Ptr(V', T[j], t) == if j == i && t == ROOT + 1 + e then b else Ptr(V, T[j], t)
    {
      assert Ptr(V, T[j], ROOT) == T[j].addrs[ROOT];
      if j == i && t > ROOT { WordPut(V[r], e, b, t - ROOT - 1); }
    }
  }

  /** Overwriting a data block changes exactly the bytes of its one file block. */
  lemma DataWrite(sb: Superblock, V: seq<Block>, T: seq<Dinode>, owner: map<nat, Slot>, i: nat, bn: nat, p: nat,
      data: Block)
    requires Owned(sb, V, T, owner) && i < |T| && bn < MAXFILE && 0 != p == Ptr(V, T[i], SlotOf(bn))
    ensures DataStart(sb) <= p < sb.size && Owned(sb, V[p := data], T, owner)
    ensures forall j, k {:trigger FileByte(V[p := data], T[j], k)} :: 0 <= j < |T| && 0 <= k < MAXBYTES ==>
              FileByte(V[p := data], T[j], k) ==
              if j == i && k / BSIZE == bn then data[k % BSIZE] else FileByte(V, T[j], k)
    ensures forall j, s :: 0 <= j < |T| && 0 <= s < NPTR ==> Ptr(V[p := data], T[j], s) == Ptr(V, T[j], s)
  {
    assert owner[p] == Slot(i, SlotOf(bn));
    var V' := V[p := data];
    forall j, s | 0 <= j < |T| && 0 <= s < NPTR ensures Ptr(V', T[j], s) == Ptr(V, T[j], s) {
      assert Ptr(V, T[j], ROOT) == T[j].addrs[ROOT];
    }
    forall j, k {:trigger FileByte(V', T[j], k)} | 0 <= j < |T| && 0 <= k < MAXBYTES
      ensures FileByte(V', T[j], k) == if j == i && k / BSIZE == bn then data[k % BSIZE] else FileByte(V, T[j], k)
    {
      var q := Ptr(V, T[j], SlotOf(k / BSIZE));
      assert Ptr(V', T[j], SlotOf(k / BSIZE)) == q;
      if q == p { assert owner[q] == Slot(j, SlotOf(k / BSIZE)); }
    }
  }

  /** Dropping every pointer of an inode takes away exactly the blocks it owns. */
  lemma DropAll(sb: Superblock, V: seq<Block>, T: seq<Dinode>, owner: map<nat, Slot>, i: nat, d: Dinode)
    requires Owned(sb, V, T, owner) && i < |T| && WfDinode(d) && d.size <= MAXBYTES
    requires NoAddrs(d)
    ensures Owned(sb, V, T[i := d], OwnerWithout(owner, i))
  {
    var T', o' := T[i := d], OwnerWithout(owner, i);
    forall b | b in o'
      ensures DataStart(sb) <= b < sb.size && o'[b].i < |T| && o'[b].s < NPTR && Ptr(V, T'[o'[b].i], o'[b].s) == b
    {
      assert Ptr(V, T[owner[b].i], owner[b].s) == b;
    }
    forall j, s | 0 <= j < |T| && 0 <= s < NPTR && Ptr(V, T'[j], s) != 0
      ensures Ptr(V, T'[j], s) in o' && o'[Ptr(V, T'[j], s)] == Slot(j, s)
    {
      assert Ptr(V, T[j], s) == Ptr(V, T'[j], s);
    }
  }

  /** Changing one on-disk inode leaves the others. */
  lemma InodeWrite(sb: Superblock, V: seq<Block>, T: seq<Dinode>, ex: int, i: nat, d: Dinode)
    requires Table(sb, V, T, ex) && i < |T| && WfDinode(d) && (ex == i || ex == -1)
    ensures IBlock(sb, i) < DataStart(sb) && IBlock(sb, i) != sb.bmapstart
    ensures var B := IBlock(sb, i);
            Table(sb, V[B := Overlay(V[B], IOff(i), EncDinode(d))], T[i := d], -1)
  {
    DinodeRoundTrip(d);
    var B := IBlock(sb, i);
    var V' := V[B := Overlay(V[B], IOff(i), EncDinode(d))];
    assert V'[B][IOff(i)..IOff(i) + DISIZE] == EncDinode(d);
    forall j | 0 <= j < |T| ensures DiskInode(sb, V', j) == T[i := d][j] {
      if j != i && IBlock(sb, j) == B {
        assert V'[B][IOff(j)..IOff(j) + DISIZE] == V[B][IOff(j)..IOff(j) + DISIZE];
      }
    }
  }

  /** Blocks outside the inode area do not matter to the table. */
  lemma OtherWrite(sb: Superblock, V: seq<Block>, T: seq<Dinode>, ex: int, b: nat, data: Block)
    requires Table(sb, V, T, ex) && sb.bmapstart <= b < |V|
    ensures Table(sb, V[b := data], T, ex)
  {
  }

  lemma BitsSet(sb: Superblock, m: Block, used: set<nat>, b: nat)
    requires Bits(sb, m, used) && b < sb.size && !Used(m, b)
    ensures DataStart(sb) <= b && b !in used && Bits(sb, BlockWithBit(m, b, true), used + {b})
  {
    forall c | 0 <= c < sb.size ensures Used(BlockWithBit(m, b, true), c) == (c == b || Used(m, c)) {
      UsedWithBit(m, b, true, c);
    }
  }

  lemma BitsClear(sb: Superblock, m: Block, used: set<nat>, b: nat)
    requires Bits(sb, m, used) && b in used
    ensures b < sb.size && Used(m, b) && Bits(sb, BlockWithBit(m, b, false), used - {b})
  {
    forall c | 0 <= c < sb.size ensures Used(BlockWithBit(m, b, false), c) == (c != b && Used(m, c)) {
      UsedWithBit(m, b, false, c);
    }
  }

  lemma PtrRange(sb: Superblock, V: seq<Block>, T: seq<Dinode>, owner: map<nat, Slot>, i: nat, s: nat)
    requires Owned(sb, V, T, owner) && i < |T| && |T[i].addrs| == NDIRECT + 1 && s < NPTR && Ptr(V, T[i], s) != 0
    ensures DataStart(sb) <= Ptr(V, T[i], s) < sb.size <= |V|
  {
  }

  /** A free inode holds no block. */
  ghost predicate Zeroed(T: seq<Dinode>) {
    forall i, k {:trigger T[i].addrs[k]} ::
      0 <= i < |T| && |T[i].addrs| == NDIRECT + 1 && T[i].typ == 0 && 0 <= k <= NDIRECT ==>
      T[i].addrs[k] == 0
  }

  /** The file-system invariant; the on-disk copy of inode `ex` may lag behind `T`. */
  ghost predicate Consistent(sb: Superblock, V: seq<Block>, T: seq<Dinode>, owner: map<nat, Slot>, ex: int) {
    && Table(sb, V, T, ex) && Owned(sb, V, T, owner)
    && Bits(sb, V[sb.bmapstart], owner.Keys) && Zeroed(T)
  }

  /** The image after balloc has handed out block `b`. */
  ghost function Allocated(sb: Superblock, V: seq<Block>, b: nat): seq<Block>
    requires sb.bmapstart < |V| && b < |V| && b < BPB
  {
    V[sb.bmapstart := BlockWithBit(V[sb.bmapstart], b, true)][b := Zeros(BSIZE)]
  }

  lemma AllocStep(sb: Superblock, V: seq<Block>, T: seq<Dinode>, owner: map<nat, Slot>, ex: int, b: nat)
    requires Consistent(sb, V, T, owner, ex) && b < sb.size && !Used(V[sb.bmapstart], b)
    ensures DataStart(sb) <= b && b !in owner
    ensures var V1 := Allocated(sb, V, b);
            && Table(sb, V1, T, ex) && Owned(sb, V1, T, owner) && V1[b] == Zeros(BSIZE)
            && Bits(sb, V1[sb.bmapstart], owner.Keys + {b}) && SameFiles(V, T, V1, T)
            && forall i, s :: 0 <= i < |T| && 0 <= s < NPTR ==> Ptr(V1, T[i], s) == Ptr(V, T[i], s)
  {
    hide Owned, Ptr, FileByte, Bits, DiskInode, Table;
    TableBounds(sb, V, T, ex);
    var m := BlockWithBit(V[sb.bmapstart], b, true);
    BitsSet(sb, V[sb.bmapstart], owner.Keys, b);
    OwnedRange(sb, V, T, owner);
    UnownedWrite(sb, V, T, owner, sb.bmapstart, m);
    var V0 := V[sb.bmapstart := m];
    UnownedWrite(sb, V0, T, owner, b, Zeros(BSIZE));
    SameTrans(V, T, V0, T, V0[b := Zeros(BSIZE)], T);
    OtherWrite(sb, V, T, ex, sb.bmapstart, m);
    OtherWrite(sb, V0, T, ex, b, Zeros(BSIZE));
  }

  lemma TableBounds(sb: Superblock, V: seq<Block>, T: seq<Dinode>, ex: int)
    requires Table(sb, V, T, ex)
    ensures SbOk(sb) && |T| == sb.ninodes && sb.bmapstart < DataStart(sb) <= sb.size <= |V|
  {
  }

  lemma OwnedRange(sb: Superblock, V: seq<Block>, T: seq<Dinode>, owner: map<nat, Slot>)
    requires Owned(sb, V, T, owner)
    ensures forall b :: b in owner ==> DataStart(sb) <= b < sb.size
    ensures forall i {:trigger T[i]} :: 0 <= i < |T| ==> WfDinode(T[i]) && T[i].size <= MAXBYTES
  {
    forall b | b in owner ensures DataStart(sb) <= b < sb.size { assert owner[b] == owner[b]; }
  }

  /** bmap allocates a direct block or the indirect root. */
  lemma GrowDirect(sb: Superblock, V: seq<Block>, T: seq<Dinode>, owner: map<nat, Slot>, i: nat, s: nat, b: nat)
    requires Consistent(sb, V, T, owner, i) && b < sb.size && !Used(V[sb.bmapstart], b)
    requires i < |T| && T[i].typ != 0 && s <= ROOT && |T[i].addrs| == NDIRECT + 1 && T[i].addrs[s] == 0
    ensures DataStart(sb) <= b && b !in owner
    ensures var V1, T' := Allocated(sb, V, b), T[i := T[i].(addrs := T[i].addrs[s := b])];
            && Consistent(sb, V1, T', owner[b := Slot(i, s)], i) && SameFiles(V, T, V1, T')
  {
    hide Owned, Ptr, FileByte, Bits;
    AllocStep(sb, V, T, owner, i, b);
    TableBounds(sb, V, T, i);
    var V1, T' := Allocated(sb, V, b), T[i := T[i].(addrs := T[i].addrs[s := b])];
    LinkDirect(sb, V1, T, owner, i, s, b);
    SameTrans(V, T, V1, T, V1, T');
    assert owner[b := Slot(i, s)].Keys == owner.Keys + {b};
  }

  /** bmap allocates a block behind entry `e` of the indirect block. */
  lemma GrowEntry(sb: Superblock, V: seq<Block>, T: seq<Dinode>, owner: map<nat, Slot>, i: nat, e: nat, b: nat, r: nat)
    requires Consistent(sb, V, T, owner, i) && b < sb.size && !Used(V[sb.bmapstart], b)
    requires i < |T| && T[i].typ != 0 && e < NINDIRECT && |T[i].addrs| == NDIRECT + 1
    requires 0 != r == T[i].addrs[ROOT] && Ptr(V, T[i], ROOT + 1 + e) == 0
    ensures DataStart(sb) <= b && b !in owner && DataStart(sb) <= r < sb.size && r != b
    ensures var V1 := Allocated(sb, V, b);
            var V2 := V1[r := Put(V1[r], 4 * e, 4, b)];
            && Consistent(sb, V2, T, owner[b := Slot(i, ROOT + 1 + e)], i) && SameFiles(V, T, V2, T)
            && Ptr(V2, T[i], ROOT + 1 + e) == b
  {
    hide Owned, Ptr, FileByte, Bits, Put;
    AllocStep(sb, V, T, owner, i, b);
    TableBounds(sb, V, T, i);
    var V1 := Allocated(sb, V, b);
    LinkEntry(sb, V1, T, owner, i, e, b, r);
    OtherWrite(sb, V1, T, i, r, Put(V1[r], 4 * e, 4, b));
    SameTrans(V, T, V1, T, V1[r := Put(V1[r], 4 * e, 4, b)], T);
    assert owner[b := Slot(i, ROOT + 1 + e)].Keys == owner.Keys + {b};
  }

  /** How many data blocks there are. */
  function DataBlocks(sb: Superblock): int {
    sb.size - DataStart(sb)
  }

  /** The blocks that the bitmap has as free. */
  ghost function FreeBlocks(sb: Superblock, V: seq<Block>): set<nat> {
    set b: nat | b < sb.size && b < BPB && sb.bmapstart < |V| && !Used(V[sb.bmapstart], b)
  }

  ghost function Range(lo: nat, hi: nat): (r: set<nat>)
    requires lo <= hi
    ensures |r| == hi - lo && forall b: nat :: b in r <==> lo <= b < hi
  {
    if lo == hi then {} else Range(lo, hi - 1) + {hi - 1}
  }

  /** What is not in use is free. */
  lemma FreeCount(sb: Superblock, V: seq<Block>, used: set<nat>)
    requires sb.bmapstart < |V| && DataStart(sb) <= sb.size && Bits(sb, V[sb.bmapstart], used)
    ensures |FreeBlocks(sb, V)| + |used| == DataBlocks(sb)
  {
    assert FreeBlocks(sb, V) * used == {};
    assert FreeBlocks(sb, V) + used == Range(DataStart(sb), sb.size);
  }

  /** balloc would panic: no free block is left. */
  ghost predicate NoFree(sb: Superblock, V: seq<Block>)
    requires sb.bmapstart < |V| && sb.size <= BPB
  {
    forall b :: 0 <= b < sb.size ==> Used(V[sb.bmapstart], b)
  }

  lemma OverlayBit(m: Block, b: nat, v: bool)
    requires b < BPB
    ensures Overlay(m, b / 8, [ByteWith(m[b / 8], b % 8, v)]) == BlockWithBit(m, b, v)
  {
  }

  /** What bfree writes clears the bit. */
  lemma BitFreed(sb: Superblock, m: Block, used: set<nat>, b: nat)
    requires Bits(sb, m, used) && b in used
    ensures b / BPB == 0 && b % BPB == b && b < BPB && Used(m, b)
    ensures Bits(sb, Overlay(m, b / 8, [ByteWith(m[b / 8], b % 8, false)]), used - {b})
  {
    hide Used;
    BitsClear(sb, m, used, b);
    OverlayBit(m, b, false);
  }

  lemma TableWeaken(sb: Superblock, V: seq<Block>, T: seq<Dinode>, owner: map<nat, Slot>, i: int)
    requires Consistent(sb, V, T, owner, -1)
    ensures Consistent(sb, V, T, owner, i)
  {
  }

  /** iupdate brings the disk up to date. */
  lemma Updated(sb: Superblock, V: seq<Block>, T: seq<Dinode>, owner: map<nat, Slot>, i: nat)
    requires Consistent(sb, V, T, owner, i) && i < |T| && |T[i].addrs| == NDIRECT + 1
    ensures var B := IBlock(sb, i);
            && sb.inodestart <= B < |V|
            && var V' := V[B := Overlay(V[B], IOff(i), EncDinode(T[i]))];
            && Consistent(sb, V', T, owner, -1) && SameFiles(V, T, V', T)
  {
    hide Owned, Ptr, FileByte, Bits, SameFiles, EncDinode, Overlay, DiskInode;
    TableBounds(sb, V, T, i);
    OwnedRange(sb, V, T, owner);
    assert WfDinode(T[i]);
    InodeWrite(sb, V, T, i, i, T[i]);
    assert T[i := T[i]] == T;
    var B := IBlock(sb, i);
    UnownedWrite(sb, V, T, owner, B, Overlay(V[B], IOff(i), EncDinode(T[i])));
  }

  lemma DivMod(cur: nat, k: nat)
    requires k < BSIZE - cur % BSIZE
    ensures (cur + k) / BSIZE == cur / BSIZE && (cur + k) % BSIZE == cur % BSIZE + k
  {
  }

  /** What readi copies out of one block is the file's next bytes. */
  lemma ReadChunk(V: seq<Block>, d: Dinode, cur: nat, m: nat, addr: nat)
    requires |d.addrs| == NDIRECT + 1 && cur + m <= d.size <= MAXBYTES && m <= BSIZE - cur % BSIZE
    requires cur < MAXBYTES && addr == Ptr(V, d, SlotOf(cur / BSIZE)) && addr < |V|
    ensures (if addr == 0 then Zeros(m) else V[addr][cur % BSIZE..cur % BSIZE + m]) == Content(V, d)[cur..cur + m]
  {
    var x := if addr == 0 then Zeros(m) else V[addr][cur % BSIZE..cur % BSIZE + m];
    forall k | 0 <= k < m ensures x[k] == Content(V, d)[cur..cur + m][k] {
      DivMod(cur, k);
    }
  }

  /** The first `tot` bytes of `src` have been written at `off` to file `i`, and nothing else. */
  ghost predicate Wrote(V0: seq<Block>, T0: seq<Dinode>, V: seq<Block>, T: seq<Dinode>, i: nat, off: nat,
      src: seq<byte>, tot: nat)
    requires tot <= |src|
  {
    && |T| == |T0| && (forall j {:trigger T[j]} :: 0 <= j < |T| ==> |T[j].addrs| == |T0[j].addrs| == NDIRECT + 1)
    && (forall j, k {:trigger FileByte(V, T[j], k)} :: 0 <= j < |T| && 0 <= k < MAXBYTES ==>
          FileByte(V, T[j], k) ==
          if j == i && off <= k < off + tot then src[k - off] else FileByte(V0, T0[j], k))
  }

  lemma WroteNothing(V0: seq<Block>, T0: seq<Dinode>, V: seq<Block>, T: seq<Dinode>, i: nat, off: nat, src: seq<byte>)
    requires SameFiles(V0, T0, V, T)
    ensures Wrote(V0, T0, V, T, i, off, src, 0)
  {
  }

  lemma WroteSame(V0: seq<Block>, T0: seq<Dinode>, V: seq<Block>, T: seq<Dinode>, V1: seq<Block>, T1: seq<Dinode>,
      i: nat, off: nat, src: seq<byte>, tot: nat)
    requires tot <= |src| && Wrote(V0, T0, V, T, i, off, src, tot) && SameFiles(V, T, V1, T1)
    ensures Wrote(V0, T0, V1, T1, i, off, src, tot)
  {
  }

  /** One round of writei. */
  lemma WriteChunk(sb: Superblock, V0: seq<Block>, T0: seq<Dinode>, V: seq<Block>, T: seq<Dinode>,
      owner: map<nat, Slot>, i: nat, off: nat, src: seq<byte>, tot: nat, m: nat, addr: nat)
    requires Consistent(sb, V, T, owner, i) && i < |T| && |T[i].addrs| == NDIRECT + 1
    requires tot + m <= |src| && m <= BSIZE - (off + tot) % BSIZE && (off + tot) / BSIZE < MAXFILE
    requires Wrote(V0, T0, V, T, i, off, src, tot) && 0 != addr == Ptr(V, T[i], SlotOf((off + tot) / BSIZE))
    ensures DataStart(sb) <= addr < sb.size <= |V|
    ensures var V' := V[addr := Overlay(V[addr], (off + tot) % BSIZE, src[tot..tot + m])];
            && Consistent(sb, V', T, owner, i) && Wrote(V0, T0, V', T, i, off, src, tot + m)
            && Ptr(V', T[i], SlotOf((off + tot) / BSIZE)) == addr
  {
    hide Owned, Table, Bits, Zeroed, FileByte, Ptr, Wrote;
    var cur := off + tot;
    TableBounds(sb, V, T, i);
    PtrRange(sb, V, T, owner, i, SlotOf(cur / BSIZE));
    OwnedRange(sb, V, T, owner);
    var data: Block := Overlay(V[addr], cur % BSIZE, src[tot..tot + m]);
    DataWrite(sb, V, T, owner, i, cur / BSIZE, addr, data);
    OtherWrite(sb, V, T, i, addr, data);
    var V' := V[addr := data];
    forall j, k {:trigger FileByte(V', T[j], k)} | 0 <= j < |T| && 0 <= k < MAXBYTES
      ensures FileByte(V', T[j], k) == if j == i && cur <= k < cur + m then src[k - off] else FileByte(V, T[j], k)
    {
      assert FileByte(V', T[j], k) == if j == i && k / BSIZE == cur / BSIZE then data[k % BSIZE]
                                      else FileByte(V, T[j], k);
      ByteAt(V, T[i], addr, k, cur);
      if j == i && cur <= k < cur + m { DivMod(cur, k - cur); }
    }
    WroteMore(V0, T0, V, T, V', i, off, src, tot, m);
  }

  lemma WroteMore(V0: seq<Block>, T0: seq<Dinode>, V: seq<Block>, T: seq<Dinode>, V': seq<Block>, i: nat, off: nat,
      src: seq<byte>, tot: nat, m: nat)
    requires tot + m <= |src| && Wrote(V0, T0, V, T, i, off, src, tot)
    requires forall j {:trigger T[j]} :: 0 <= j < |T| ==> |T[j].addrs| == NDIRECT + 1
    requires forall j, k {:trigger FileByte(V', T[j], k)} :: 0 <= j < |T| && 0 <= k < MAXBYTES ==>
               FileByte(V', T[j], k) == if j == i && off + tot <= k < off + tot + m then src[k - off]
                                        else FileByte(V, T[j], k)
    ensures Wrote(V0, T0, V', T, i, off, src, tot + m)
  {
    forall j, k {:trigger FileByte(V', T[j], k)} | 0 <= j < |T| && 0 <= k < MAXBYTES
      ensures FileByte(V', T[j], k) == if j == i && off <= k < off + tot + m then src[k - off]
                                       else FileByte(V0, T0[j], k)
    {
      assert |T[j].addrs| == |T0[j].addrs| == NDIRECT + 1;
      var was := FileByte(V, T[j], k);
      assert was == if j == i && off <= k < off + tot then src[k - off] else FileByte(V0, T0[j], k);
    }
  }

  lemma ByteAt(V: seq<Block>, d: Dinode, addr: nat, k: nat, cur: nat)
    requires |d.addrs| == NDIRECT + 1 && k < MAXBYTES && cur < MAXBYTES
    requires 0 < addr == Ptr(V, d, SlotOf(cur / BSIZE)) && addr < |V|
    ensures k / BSIZE == cur / BSIZE ==> FileByte(V, d, k) == V[addr][k % BSIZE]
  {
  }

  /** `c` with `src` written at `off`: overlaid, and extended if it runs past the end. */
  function Splice(c: seq<byte>, off: nat, src: seq<byte>): (r: seq<byte>)
    requires off <= |c|
    ensures |r| == if off + |src| > |c| then off + |src| else |c|
  {
    if off + |src| <= |c| then Overlay(c, off, src) else c[..off] + src
  }

  predicate WfFile(d: Dinode) {
    |d.addrs| == NDIRECT + 1 && d.size <= MAXBYTES
  }

  /** Only inode `i` may have changed: every other one is as before, and reads as before. */
  ghost predicate OnlyFile(V: seq<Block>, T: seq<Dinode>, V': seq<Block>, T': seq<Dinode>, i: int) {
    && |T'| == |T|
    && forall j {:trigger T'[j]} :: 0 <= j < |T| && j != i ==>
         T'[j] == T[j] && (WfFile(T[j]) ==> Content(V', T'[j]) == Content(V, T[j]))
  }

  lemma OnlyTrans(V: seq<Block>, T: seq<Dinode>, V1: seq<Block>, T1: seq<Dinode>, V2: seq<Block>, T2: seq<Dinode>,
      i: int)
    requires OnlyFile(V, T, V1, T1, i) && OnlyFile(V1, T1, V2, T2, i)
    ensures OnlyFile(V, T, V2, T2, i)
  {
    hide Content, WfFile;
  }

  lemma SameOnly(V: seq<Block>, T: seq<Dinode>, V': seq<Block>, T': seq<Dinode>, i: int)
    requires SameFiles(V, T, V', T') && forall j :: 0 <= j < |T| && j != i ==> T'[j] == T[j]
    ensures OnlyFile(V, T, V', T', i)
  {
    hide FileByte;
  }

  lemma OthersOnly(V: seq<Block>, T: seq<Dinode>, V': seq<Block>, T': seq<Dinode>, i: int)
    requires OthersSame(V, T, V', T', i)
    ensures OnlyFile(V, T, V', T', i)
  {
    hide FileByte;
  }

  /** writei, once the size is set: file `i` is spliced, every other file is the same. */
  lemma WroteContent(V0: seq<Block>, T0: seq<Dinode>, V: seq<Block>, T: seq<Dinode>, i: nat, off: nat, src: seq<byte>)
    requires Wrote(V0, T0, V, T, i, off, src, |src|) && i < |T| && off <= T0[i].size <= MAXBYTES
    requires T[i].size == (if off + |src| > T0[i].size then off + |src| else T0[i].size) && T[i].size <= MAXBYTES
    requires forall j :: 0 <= j < |T| && j != i ==> T[j] == T0[j]
    ensures Content(V, T[i]) == Splice(Content(V0, T0[i]), off, src)
    ensures OnlyFile(V0, T0, V, T, i)
  {
    hide FileByte;
  }

  /** Changing the fields of an inode other than its pointers. */
  lemma MetaChange(sb: Superblock, V: seq<Block>, T: seq<Dinode>, owner: map<nat, Slot>, i: nat, d: Dinode)
    requires Consistent(sb, V, T, owner, i) && i < |T| && d.addrs == T[i].addrs
    requires WfDinode(d) && d.size <= MAXBYTES
             && (d.typ == 0 ==> T[i].typ == 0 || forall k :: 0 <= k <= NDIRECT ==> d.addrs[k] == 0)
    ensures Consistent(sb, V, T[i := d], owner, i) && SameFiles(V, T, V, T[i := d])
  {
    var T' := T[i := d];
    forall j, s | 0 <= j < |T| && 0 <= s < NPTR ensures Ptr(V, T'[j], s) == Ptr(V, T[j], s) {
    }
    forall b | b in owner
      ensures DataStart(sb) <= b < sb.size && owner[b].i < |T'| && owner[b].s < NPTR
              && Ptr(V, T'[owner[b].i], owner[b].s) == b
    {
      assert Ptr(V, T[owner[b].i], owner[b].s) == b;
    }
  }

  /** ialloc: a free inode gets a type. */
  lemma Claimed(sb: Superblock, V: seq<Block>, T: seq<Dinode>, owner: map<nat, Slot>, j: nat, typ: nat)
    requires Consistent(sb, V, T, owner, -1) && j < |T| && T[j].typ == 0 && 0 < typ < U16
    ensures var d, B := Blank(typ), IBlock(sb, j);
            && sb.inodestart <= B < |V|
            && var V' := V[B := Overlay(V[B], IOff(j), EncDinode(d))];
            && Consistent(sb, V', T[j := d], owner, -1) && SameFiles(V, T, V', T[j := d])
  {
    hide Owned, Bits, SameFiles, EncDinode, DiskInode;
    var d := Blank(typ);
    OwnedRange(sb, V, T, owner);
    assert WfDinode(T[j]);
    assert d.addrs == T[j].addrs;
    TableWeaken(sb, V, T, owner, j);
    MetaChange(sb, V, T, owner, j, d);
    Updated(sb, V, T[j := d], owner, j);
    var B := IBlock(sb, j);
    SameTrans(V, T, V, T[j := d], V[B := Overlay(V[B], IOff(j), EncDinode(d))], T[j := d]);
  }

  /** The number of blocks that `n` bytes at `off` touch. */
  function Span(off: nat, n: nat): nat {
    if n == 0 then 0 else (off + n - 1) / BSIZE - off / BSIZE + 1
  }

  lemma SpanStep(off: nat, n: nat, m: nat)
    requires n > 0 && m == if BSIZE - off % BSIZE > n then n else BSIZE - off % BSIZE
    ensures Span(off, n) == 1 + Span(off + m, n - m)
    ensures off / BSIZE < MAXFILE ==> off + m <= MAXBYTES
  {
  }

  /** Files other than `i` read the same. */
  ghost predicate OthersSame(V: seq<Block>, T: seq<Dinode>, V': seq<Block>, T': seq<Dinode>, i: int) {
    && |T'| == |T| && (forall j {:trigger T'[j]} :: 0 <= j < |T| ==> |T[j].addrs| == |T'[j].addrs| == NDIRECT + 1)
    && (forall j {:trigger T'[j]} :: 0 <= j < |T| && j != i ==> T'[j] == T[j])
    && (forall j, k {:trigger FileByte(V', T'[j], k)} :: 0 <= j < |T| && j != i && 0 <= k < MAXBYTES ==>
          FileByte(V', T'[j], k) == FileByte(V, T[j], k))
  }

  ghost function OwnerWithout(owner: map<nat, Slot>, i: nat): map<nat, Slot> {
    map b | b in owner && owner[b].i != i :: owner[b]
  }

  /** An inode that points nowhere. */
  ghost predicate NoAddrs(d: Dinode) {
    |d.addrs| == NDIRECT + 1 && forall k :: 0 <= k <= NDIRECT ==> d.addrs[k] == 0
  }

  lemma OthersTrans(V: seq<Block>, T: seq<Dinode>, V1: seq<Block>, T1: seq<Dinode>, V2: seq<Block>, T2: seq<Dinode>,
      i: int)
    requires OthersSame(V, T, V1, T1, i) && SameFiles(V1, T1, V2, T2)
    requires forall j :: 0 <= j < |T2| && j != i ==> T2[j] == T1[j]
    ensures OthersSame(V, T, V2, T2, i)
  {
    hide FileByte;
  }

  /** itrunc, part way: of the blocks of inode `i`, those behind the pointers below `a` and
      behind the indirect entries below slot `e` have been freed. */
  ghost predicate FreedSoFar(owner: map<nat, Slot>, i: nat, freed: set<nat>, a: nat, e: nat) {
    && freed <= owner.Keys
    && forall b {:trigger owner[b]} :: b in owner ==>
         (b in freed <==> owner[b].i == i && (owner[b].s < a || ROOT < owner[b].s < e))
  }

  /** Pointer `s` of inode `i` is the next to be freed: its block is still in use. */
  lemma FreeNext(sb: Superblock, V: seq<Block>, T: seq<Dinode>, owner: map<nat, Slot>, i: nat, freed: set<nat>, a: nat,
      e: nat, s: nat)
    requires Owned(sb, V, T, owner) && FreedSoFar(owner, i, freed, a, e) && i < |T| && s < NPTR
    requires (s == a <= ROOT) || (a == NDIRECT && s == e > ROOT)
    ensures Ptr(V, T[i], s) != 0 ==> Ptr(V, T[i], s) in owner.Keys - freed
    ensures var p := Ptr(V, T[i], s);
            var f := if p == 0 then freed else freed + {p};
            FreedSoFar(owner, i, f, if s == a then a + 1 else a, if s == a then e else e + 1)
  {
    hide Ptr;
    var p := Ptr(V, T[i], s);
    forall b | b in owner && owner[b] == Slot(i, s) ensures b == p {
      assert Ptr(V, T[owner[b].i], owner[b].s) == b;
    }
  }

  lemma FreedNone(owner: map<nat, Slot>, i: nat)
    ensures FreedSoFar(owner, i, {}, 0, ROOT + 1)
  {
  }

  /** Without an indirect block there is nothing more to free. */
  lemma FreedNoRoot(sb: Superblock, V: seq<Block>, T: seq<Dinode>, owner: map<nat, Slot>, i: nat, freed: set<nat>)
    requires Owned(sb, V, T, owner) && FreedSoFar(owner, i, freed, NDIRECT, ROOT + 1)
    requires i < |T| && |T[i].addrs| == NDIRECT + 1 && T[i].addrs[ROOT] == 0
    ensures FreedSoFar(owner, i, freed, ROOT + 1, NPTR)
  {
    forall b | b in owner && owner[b].i == i ensures owner[b].s < NDIRECT {
      assert Ptr(V, T[owner[b].i], owner[b].s) == b && b >= 1;
    }
  }

  /** At the end of itrunc the inode owns nothing and the others own what they did. */
  lemma Truncated(sb: Superblock, V0: seq<Block>, V: seq<Block>, T: seq<Dinode>, owner: map<nat, Slot>, i: nat,
      freed: set<nat>, d: Dinode)
    requires Table(sb, V0, T, i) && Owned(sb, V0, T, owner) && Zeroed(T) && i < |T|
    requires FreedSoFar(owner, i, freed, ROOT + 1, NPTR) && sb.bmapstart < |V0|
    requires |V| == |V0| && V == V0[sb.bmapstart := V[sb.bmapstart]] && Bits(sb, V[sb.bmapstart], owner.Keys - freed)
    requires WfDinode(d) && d.size <= MAXBYTES && NoAddrs(d)
    ensures Consistent(sb, V, T[i := d], OwnerWithout(owner, i), i)
    ensures OthersSame(V0, T, V, T[i := d], i)
  {
    hide Ptr, FileByte, Bits, Used, DiskInode;
    TableBounds(sb, V0, T, i);
    OwnedRange(sb, V0, T, owner);
    UnownedWrite(sb, V0, T, owner, sb.bmapstart, V[sb.bmapstart]);
    OtherWrite(sb, V0, T, i, sb.bmapstart, V[sb.bmapstart]);
    DropAll(sb, V, T, owner, i, d);
    var o' := OwnerWithout(owner, i);
    assert o'.Keys == owner.Keys - freed by {
      forall b | b in owner ensures b in freed <==> owner[b].i == i {
        assert owner[b].s < NPTR;
      }
    }
    assert Zeroed(T[i := d]);
    assert Bits(sb, V[sb.bmapstart], o'.Keys);
    assert Table(sb, V, T[i := d], i);
    assert Owned(sb, V, T[i := d], o');
  }
}
