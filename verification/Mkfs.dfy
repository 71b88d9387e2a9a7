/** mkfs/mkfs.c: the image it makes can be mounted and holds an empty root directory. */
module Mkfs {
  import opened Bytes
  import opened LogSpec
  import opened FsSpec
  import opened FsState
  import opened Dir
  import opened Fs
  import opened NameOps
  import opened Boot
  import Layout

  const FSSIZE := 1000
  const NINODES := 200
  const MAPSIZE := FSSIZE / 8 + 1

  /** The layout that main computes: log 2..31, inodes 32..44, bitmap 45, data from 46 on. */
  const SB := Superblock(FSSIZE, NINODES, 30, 2, 32, 45)

  /** The bitmap array as it goes to disk. */
  function Pack(bitmap: seq<byte>): (m: Block)
    requires |bitmap| <= BSIZE
  {
    bitmap + Zeros(BSIZE - |bitmap|)
  }

  lemma {:induction false} BitZero(k: nat)
    ensures !Bit(0, k)
  {
    if k > 0 { BitZero(k - 1); }
  }

  lemma PackMark(bitmap: seq<byte>, b: nat)
    requires |bitmap| == MAPSIZE && b < FSSIZE
    ensures Pack(bitmap[b / 8 := ByteWith(bitmap[b / 8], b % 8, true)]) == BlockWithBit(Pack(bitmap), b, true)
  {
  }

  /** struct superblock in a zeroed block. */
  function EncSuper(magic: nat, nblocks: nat, sb: Superblock): (b: Block) {
    Enc(magic, 4) + Enc(sb.size, 4) + Enc(nblocks, 4) + Enc(sb.ninodes, 4) + Enc(sb.nlog, 4) + Enc(sb.logstart, 4)
      + Enc(sb.inodestart, 4) + Enc(sb.bmapstart, 4) + Zeros(BSIZE - 32)
  }

  /** The superblock of the image, word by word: magic, 1000 blocks, 954 of them for data, 200 inodes, 30
      log blocks from block 2, inodes from block 32 and the bitmap in block 45. */
  predicate SuperBytes(b: Block) {
    && Layout.U4(b, 0) == 0x1020_3040 && Layout.U4(b, 4) == 1000 && Layout.U4(b, 8) == 954 && Layout.U4(b, 12) == 200
    && Layout.U4(b, 16) == 30 && Layout.U4(b, 20) == 2 && Layout.U4(b, 24) == 32 && Layout.U4(b, 28) == 45
  }

  lemma SuperBytesIs(b: Block)
    requires SuperIs(SB, b) && SuperWord(b, 2) == 954
    ensures SuperBytes(b)
  {
    hide Layout.U4;
    Layout.SuperLayout(b, SB);
    Layout.Words(b, 8);
  }

  lemma SuperRoundTrip(magic: nat, nblocks: nat, sb: Superblock)
    requires magic < U32 && nblocks < U32 && sb.size < U32 && sb.ninodes < U32 && sb.nlog < U32 && sb.logstart < U32
             && sb.inodestart < U32 && sb.bmapstart < U32
    ensures SuperWord(EncSuper(magic, nblocks, sb), 0) == magic && DecSuper(EncSuper(magic, nblocks, sb)) == sb
            && SuperWord(EncSuper(magic, nblocks, sb), 2) == nblocks
  {
    hide Enc;
    var b := EncSuper(magic, nblocks, sb);
    assert Pow256(4) == U32;
    assert b[0..4] == Enc(magic, 4);
    assert b[4..8] == Enc(sb.size, 4);
    assert b[8..12] == Enc(nblocks, 4);
    DecEnc(nblocks, 4);
    assert b[12..16] == Enc(sb.ninodes, 4);
    assert b[16..20] == Enc(sb.nlog, 4);
    assert b[20..24] == Enc(sb.logstart, 4);
    assert b[24..28] == Enc(sb.inodestart, 4);
    assert b[28..32] == Enc(sb.bmapstart, 4);
    DecEnc(magic, 4); DecEnc(sb.size, 4); DecEnc(sb.ninodes, 4); DecEnc(sb.nlog, 4);
    DecEnc(sb.logstart, 4); DecEnc(sb.inodestart, 4); DecEnc(sb.bmapstart, 4);
  }

  lemma GetZeros(r: seq<byte>, off: nat, k: nat)
    requires off + k <= |r| && forall j :: 0 <= j < |r| ==> r[j] == 0
    ensures Get(r, off, k) == 0
  {
    var s := r[off..off + k];
    assert forall j :: 0 <= j < k ==> s[j] == r[off + j];
    DecZeros(s);
  }

  /** A zeroed inode block holds free inodes. */
  lemma ZeroInode(V: seq<Block>, i: nat)
    requires IBlock(SB, i) < |V| && V[IBlock(SB, i)] == Zeros(BSIZE)
    ensures DiskInode(SB, V, i) == Blank(0)
  {
    hide Dec;
    var r := V[IBlock(SB, i)][IOff(i)..IOff(i) + DISIZE];
    assert forall k :: 0 <= k < DISIZE ==> r[k] == 0;
    GetZeros(r, 0, 2); GetZeros(r, 2, 2); GetZeros(r, 4, 2); GetZeros(r, 6, 2); GetZeros(r, 8, 4);
    forall k | 0 <= k <= NDIRECT ensures Get(r, 12 + 4 * k, 4) == 0 { GetZeros(r, 12 + 4 * k, 4); }
    assert DecDinode(r).addrs == Zeroes(NDIRECT + 1);
  }

  /** Marked up to `n`, the bitmap says that exactly the blocks below `n` are in use. */
  ghost predicate Marked(bitmap: seq<byte>, n: nat) {
    |bitmap| == MAPSIZE && forall b {:trigger Used(Pack(bitmap), b)} ::
                             0 <= b < FSSIZE ==> (Used(Pack(bitmap), b) <==> b < n)
  }

  /** The image so far; the bitmap is still in memory. */
  ghost function View(disk: seq<Block>, bitmap: seq<byte>): seq<Block>
    requires |disk| == FSSIZE && |bitmap| == MAPSIZE
  {
    disk[SB.bmapstart := Pack(bitmap)]
  }

  /** All that mkfs keeps true once the layout is planned; on disk, inode `ex` may lag behind. */
  ghost predicate Made(disk: seq<Block>, bitmap: seq<byte>, freeblock: nat, T: seq<Dinode>, owner: map<nat, Slot>,
      ex: int) {
    && |disk| == FSSIZE && Marked(bitmap, freeblock) && DataStart(SB) <= freeblock <= FSSIZE
    && Consistent(SB, View(disk, bitmap), T, owner, ex)
    && (forall b: nat {:trigger disk[b]} ::
          b < FSSIZE && (freeblock <= b || InLog(Geo(SB), b)) ==> disk[b] == Zeros(BSIZE))
  }

  /** The inode table of a new disk. */
  function Blanks(): seq<Dinode> {
    seq(NINODES, _ => Blank(0))
  }

  lemma MadeStart(disk: seq<Block>, bitmap: seq<byte>)
    requires |disk| == FSSIZE && Marked(bitmap, DataStart(SB))
             && forall b {:trigger disk[b]} :: 0 <= b < FSSIZE && b != 1 ==> disk[b] == Zeros(BSIZE)
    ensures Made(disk, bitmap, DataStart(SB), Blanks(), map[], -1)
  {
    hide Used;
    var T, V := Blanks(), View(disk, bitmap);
    assert V[SB.bmapstart] == Pack(bitmap);
    forall i | 0 <= i < |T| ensures DiskInode(SB, V, i) == T[i] && WfDinode(T[i]) {
      ZeroInode(V, i);
    }
  }

  lemma MadeShape(disk: seq<Block>, bitmap: seq<byte>, freeblock: nat, T: seq<Dinode>, owner: map<nat, Slot>, ex: int)
    requires Made(disk, bitmap, freeblock, T, owner, ex)
    ensures |disk| == FSSIZE && |bitmap| == MAPSIZE && |T| == NINODES && DataStart(SB) <= freeblock <= FSSIZE
            && Marked(bitmap, freeblock)
    ensures forall i :: 0 <= i < |T| ==> WfDinode(T[i]) && WfFile(T[i])
  {
    hide Bits, Used, DiskInode, Zeroed, Ptr;
    OwnedRange(SB, View(disk, bitmap), T, owner);
  }

  /** winode of an inode whose pointers are those of before. */
  lemma MadeInode(disk: seq<Block>, bitmap: seq<byte>, freeblock: nat, T: seq<Dinode>, owner: map<nat, Slot>, ex: int,
      i: nat, d: Dinode)
    requires Made(disk, bitmap, freeblock, T, owner, ex) && (ex == -1 || ex == i) && i < |T| == NINODES
             && |bitmap| == MAPSIZE
    requires d.addrs == T[i].addrs && WfDinode(d) && d.size <= MAXBYTES && d.typ != 0
    ensures SB.inodestart <= IBlock(SB, i) < SB.bmapstart
    ensures var disk' := disk[IBlock(SB, i) := Overlay(disk[IBlock(SB, i)], IOff(i), EncDinode(d))];
            && Made(disk', bitmap, freeblock, T[i := d], owner, -1)
            && SameFiles(View(disk, bitmap), T, View(disk', bitmap), T[i := d])
  {
    hide Bits, Marked, DiskInode, Zeroed, Ptr, Owned, SameFiles, Overlay;
    var V, B := View(disk, bitmap), IBlock(SB, i);
    if ex == -1 { TableWeaken(SB, V, T, owner, i); }
    MetaChange(SB, V, T, owner, i, d);
    Updated(SB, V, T[i := d], owner, i);
    var disk' := disk[B := Overlay(disk[B], IOff(i), EncDinode(d))];
    assert View(disk', bitmap) == V[B := Overlay(V[B], IOff(i), EncDinode(d))];
    SameTrans(V, T, V, T[i := d], View(disk', bitmap), T[i := d]);
  }

  /** balloc for direct block `s` of inode `i`. */
  lemma MadeBlock(disk: seq<Block>, bitmap: seq<byte>, bitmap': seq<byte>, b: nat, T: seq<Dinode>,
      owner: map<nat, Slot>, i: nat, s: nat)
    requires Made(disk, bitmap, b, T, owner, i) && b < FSSIZE && i < |T| && T[i].typ != 0 && s < NDIRECT
             && |T[i].addrs| == NDIRECT + 1 && T[i].addrs[s] == 0
    requires |bitmap'| == MAPSIZE && Pack(bitmap') == BlockWithBit(Pack(bitmap), b, true)
    ensures var T' := T[i := T[i].(addrs := T[i].addrs[s := b])];
            && Made(disk, bitmap', b + 1, T', owner[b := Slot(i, s)], i)
            && SameFiles(View(disk, bitmap), T, View(disk, bitmap'), T')
  {
    hide Bits, DiskInode, Zeroed, Ptr, Owned, SameFiles, BlockWithBit, Used, Table;
    MarkOne(bitmap, bitmap', b);
    assert !Used(Pack(bitmap), b);
    GrowDirect(SB, View(disk, bitmap), T, owner, i, s, b);
    assert View(disk, bitmap') == Allocated(SB, View(disk, bitmap), b);
  }

  /** One round of iappend's copy. */
  lemma MadeData(disk: seq<Block>, bitmap: seq<byte>, freeblock: nat, T: seq<Dinode>, owner: map<nat, Slot>, i: nat,
      V0: seq<Block>, T0: seq<Dinode>, off: nat, src: seq<byte>, tot: nat, m: nat, addr: nat)
    requires Made(disk, bitmap, freeblock, T, owner, i) && i < |T| && |T[i].addrs| == NDIRECT + 1 && |bitmap| == MAPSIZE
    requires tot + m <= |src| && m <= BSIZE - (off + tot) % BSIZE && (off + tot) / BSIZE < NDIRECT
    requires Wrote(V0, T0, View(disk, bitmap), T, i, off, src, tot) && 0 != addr == T[i].addrs[(off + tot) / BSIZE]
    ensures DataStart(SB) <= addr < FSSIZE
    ensures var disk' := disk[addr := Overlay(disk[addr], (off + tot) % BSIZE, src[tot..tot + m])];
            && Made(disk', bitmap, freeblock, T, owner, i)
            && Wrote(V0, T0, View(disk', bitmap), T, i, off, src, tot + m)
  {
    hide DiskInode, Zeroed, FileByte, Wrote, Used, Overlay, Table;
    var V := View(disk, bitmap);
    assert Ptr(V, T[i], SlotOf((off + tot) / BSIZE)) == addr;
    WriteChunk(SB, V0, T0, V, T, owner, i, off, src, tot, m, addr);
    assert addr in owner && Used(V[SB.bmapstart], addr);
    var disk' := disk[addr := Overlay(disk[addr], (off + tot) % BSIZE, src[tot..tot + m])];
    assert View(disk', bitmap) == V[addr := Overlay(V[addr], (off + tot) % BSIZE, src[tot..tot + m])];
  }

  lemma MadeSame(disk: seq<Block>, bitmap: seq<byte>, freeblock: nat, T: seq<Dinode>, owner: map<nat, Slot>, ex: int)
    requires Made(disk, bitmap, freeblock, T, owner, ex) && |bitmap| == MAPSIZE
    ensures SameFiles(View(disk, bitmap), T, View(disk, bitmap), T)
  {
    hide SameFiles, Bits, Table, Marked, Zeroed;
    SameRefl(SB, View(disk, bitmap), T, owner);
  }

  lemma MadeWeaken(disk: seq<Block>, bitmap: seq<byte>, freeblock: nat, T: seq<Dinode>, owner: map<nat, Slot>, i: int)
    requires Made(disk, bitmap, freeblock, T, owner, -1)
    ensures Made(disk, bitmap, freeblock, T, owner, i)
  {
    hide Bits, Owned, Zeroed, Marked;
  }

  lemma MadeAt(disk: seq<Block>, bitmap: seq<byte>, freeblock: nat, T: seq<Dinode>, owner: map<nat, Slot>, i: nat)
    requires Made(disk, bitmap, freeblock, T, owner, -1) && i < |T|
    ensures i < NINODES && IBlock(SB, i) < SB.bmapstart && LoadInode(disk[IBlock(SB, i)], i) == T[i]
  {
    hide Bits, Owned, Zeroed, Marked, DiskInode;
    assert |bitmap| == MAPSIZE by { MadeShape(disk, bitmap, freeblock, T, owner, -1); }
    var V := View(disk, bitmap);
    assert T[i] == DiskInode(SB, V, i);
    LoadIs(SB, V, i);
    assert V[IBlock(SB, i)] == disk[IBlock(SB, i)];
  }

  lemma SpliceEnd(c: seq<byte>, data: seq<byte>)
    ensures Splice(c, |c|, data) == c + data
  {
    assert c[..|c|] == c;
  }

  class Image {
    var disk: seq<Block>
    var bitmap: seq<byte>
    var freeinode: nat
    var freeblock: nat
    ghost var T: seq<Dinode>
    ghost var owner: map<nat, Slot>

    ghost predicate Inv(ex: int)
      reads this
    {
      Made(disk, bitmap, freeblock, T, owner, ex)
    }

    ghost function V(): seq<Block>
      requires |disk| == FSSIZE && |bitmap| == MAPSIZE
      reads this
    {
      View(disk, bitmap)
    }

    method BallocMark(b: nat)
      requires |bitmap| == MAPSIZE && b < FSSIZE
      modifies this`bitmap
      ensures |bitmap| == MAPSIZE && Pack(bitmap) == BlockWithBit(Pack(old(bitmap)), b, true)
    {
      PackMark(bitmap, b);
      bitmap := bitmap[b / 8 := ByteWith(bitmap[b / 8], b % 8, true)];
    }

    /** The zeroed disk, the layout, and the metadata blocks marked. */
    constructor Plan()
      ensures Inv(-1) && DecSuper(disk[1]) == SB && SuperWord(disk[1], 0) == FSMAGIC && SuperBytes(disk[1])
      ensures T == Blanks() && owner == map[] && freeinode == 1 && freeblock == DataStart(SB)
    {
      disk := seq(FSSIZE, _ => Zeros(BSIZE));
      bitmap := Zeros(MAPSIZE);
      freeinode, freeblock := 1, DataStart(SB);
      T, owner := Blanks(), map[];
      new;
      hide Used, DecSuper, SuperWord, EncSuper, Consistent, BlockWithBit, Made, Zeros, SuperBytes;
      ghost var d0, T0 := disk, T;
      assert Marked(bitmap, 0) by { ZeroMap(); }
      for i := 0 to freeblock
        invariant Marked(bitmap, i) && freeblock == DataStart(SB) && freeinode == 1
        invariant disk == d0 && T == T0 && owner == map[]
      {
        ghost var m := bitmap;
        BallocMark(i);
        MarkOne(m, bitmap, i);
      }
      SuperRoundTrip(FSMAGIC, FSSIZE - freeblock, SB);
      disk := disk[1 := EncSuper(FSMAGIC, FSSIZE - freeblock, SB)];
      SuperBytesIs(disk[1]);
      MadeStart(disk, bitmap);
    }

    /** winode: read the block, replace the inode's bytes, write it. */
    method Winode(inum: nat, d: Dinode, ghost ex: int)
      requires Inv(ex) && (ex == -1 || ex == inum) && inum < |T| == NINODES && |T[inum].addrs| == NDIRECT + 1
      requires d.addrs == T[inum].addrs && WfDinode(d) && d.size <= MAXBYTES && d.typ != 0
      modifies this`disk, this`T
      ensures Inv(-1) && T == old(T)[inum := d] && |disk| == FSSIZE == |old(disk)| && |bitmap| == MAPSIZE
      ensures SameFiles(View(old(disk), bitmap), old(T), V(), T) && disk[1] == old(disk)[1]
    {
      hide Made, SameFiles, Overlay;
      MadeShape(disk, bitmap, freeblock, T, owner, ex);
      MadeInode(disk, bitmap, freeblock, T, owner, ex, inum, d);
      var bn := inum / IPB + SB.inodestart;
      var buf: Block := disk[bn];
      disk := disk[bn := Overlay(buf, IOff(inum), EncDinode(d))];
      T := T[inum := d];
    }

    /** rinode. */
    method Rinode(inum: nat) returns (d: Dinode)
      requires Inv(-1) && inum < |T|
      ensures d == T[inum]
    {
      hide Made;
      MadeShape(disk, bitmap, freeblock, T, owner, -1);
      MadeAt(disk, bitmap, freeblock, T, owner, inum);
      var buf: Block := disk[inum / IPB + SB.inodestart];
      d := LoadInode(buf, inum);
    }

    /** ialloc: the next inode, with one link. */
    method Ialloc(typ: nat) returns (inum: nat)
      requires Inv(-1) && freeinode < NINODES == |T| && T[freeinode] == Blank(0) && 0 < typ < U16
      modifies this`disk, this`T, this`freeinode
      ensures Inv(-1) && inum == old(freeinode) && freeinode == inum + 1
      ensures T == old(T)[inum := Blank(typ).(nlink := 1)] && |disk| == FSSIZE == |old(disk)| && disk[1] == old(disk)[1]
    {
      hide Made;
      inum := freeinode;
      freeinode := freeinode + 1;
      Winode(inum, Blank(typ).(nlink := 1), -1);
    }

    /** balloc: the next block. */
    method Balloc() returns (b: nat)
      requires |bitmap| == MAPSIZE && freeblock < FSSIZE
      modifies this`bitmap, this`freeblock
      ensures b == old(freeblock) && freeblock == b + 1 && |bitmap| == MAPSIZE
              && Pack(bitmap) == BlockWithBit(Pack(old(bitmap)), b, true)
    {
      b := freeblock;
      freeblock := freeblock + 1;
      BallocMark(b);
    }

    /** The block for offset `off` of inode `inum`, whose in-memory copy is `din`. */
    method BlockFor(inum: nat, din: Dinode, off: nat) returns (d: Dinode)
      requires Inv(inum) && inum < |T| && T[inum] == din && din.typ != 0 && |din.addrs| == NDIRECT + 1
               && off / BSIZE < NDIRECT && freeblock < FSSIZE
      modifies this`bitmap, this`freeblock, this`T, this`owner
      ensures Inv(inum) && inum < |T| && T == old(T)[inum := d] && d == din.(addrs := d.addrs)
              && |d.addrs| == NDIRECT + 1 && d.addrs[off / BSIZE] != 0
      ensures old(freeblock) <= freeblock <= old(freeblock) + 1
      ensures |disk| == FSSIZE && |old(bitmap)| == |bitmap| == MAPSIZE
              && SameFiles(View(disk, old(bitmap)), old(T), V(), T)
    {
      hide Made, SameFiles, BlockWithBit;
      MadeShape(disk, bitmap, freeblock, T, owner, inum);
      d := din;
      var bn := off / BSIZE;
      if d.addrs[bn] == 0 {
        ghost var m := bitmap;
        var b := Balloc();
        MadeBlock(disk, m, bitmap, b, T, owner, inum, bn);
        d := d.(addrs := d.addrs[bn := b]);
        T, owner := T[inum := d], owner[b := Slot(inum, bn)];
      } else {
        MadeSame(disk, bitmap, freeblock, T, owner, inum);
        assert T == T[inum := d];
      }
    }

    /** iappend: the file's contents grow by `data`; false for "file too large". */
    method Iappend(inum: nat, data: seq<byte>) returns (ok: bool)
      requires Inv(-1) && inum < |T| && T[inum].typ != 0 && T[inum].size + |data| <= MAXBYTES
      requires freeblock + Span(T[inum].size, |data|) <= FSSIZE
      modifies this`disk, this`bitmap, this`freeblock, this`T, this`owner
      ensures !ok ==> old(T)[inum].size + |data| > NDIRECT * BSIZE
      ensures ok ==> && Inv(-1) && |T| == |old(T)| && |old(disk)| == |disk| == FSSIZE
                     && |old(bitmap)| == |bitmap| == MAPSIZE && disk[1] == old(disk)[1]
                     && WfFile(old(T)[inum]) && WfFile(T[inum])
                     && T[inum] == old(T)[inum].(addrs := T[inum].addrs, size := T[inum].size)
                     && T == old(T)[inum := T[inum]] && freeblock <= old(freeblock) + Span(old(T)[inum].size, |data|)
                     && Content(V(), T[inum]) == Content(old(V()), old(T)[inum]) + data
    {
      hide Made, SameFiles, Wrote, Span, Content, Overlay;
      MadeShape(disk, bitmap, freeblock, T, owner, -1);
      ghost var V0, T0 := V(), T;
      var din := Rinode(inum);
      MadeWeaken(disk, bitmap, freeblock, T, owner, inum);
      MadeSame(disk, bitmap, freeblock, T, owner, inum);
      WroteNothing(V0, T0, V(), T, inum, T[inum].size, data);
      var off, n, pos := din.size, |data|, 0;
      assert T == T[inum := din];
      while n > 0
        invariant 0 <= n && pos + n == |data| && off == T0[inum].size + pos && Inv(inum) && |T| == |T0|
                  && T == T0[inum := din]
        invariant din == T0[inum].(addrs := din.addrs) && |din.addrs| == NDIRECT + 1
        invariant |disk| == FSSIZE && |bitmap| == MAPSIZE && disk[1] == old(disk)[1]
        invariant Wrote(V0, T0, V(), T, inum, T0[inum].size, data, pos)
        invariant freeblock + Span(off, n) <= old(freeblock) + Span(T0[inum].size, |data|)
      {
        var bn := off / BSIZE;
        if bn >= NDIRECT { return false; }
        var m := BSIZE - off % BSIZE;
        if m > n { m := n; }
        SpanStep(off, n, m);
        ghost var V1, T1 := V(), T;
        din := BlockFor(inum, din, off);
        WroteSame(V0, T0, V1, T1, V(), T, inum, T0[inum].size, data, pos);
        MadeData(disk, bitmap, freeblock, T, owner, inum, V0, T0, T0[inum].size, data, pos, m, din.addrs[bn]);
        var buf: Block := disk[din.addrs[bn]];
        disk := disk[din.addrs[bn] := Overlay(buf, off % BSIZE, data[pos..pos + m])];
        off, pos, n := off + m, pos + m, n - m;
      }
      din := din.(size := off);
      ghost var V1, T1 := V(), T;
      MadeShape(disk, bitmap, freeblock, T, owner, inum);
      Winode(inum, din, inum);
      MadeShape(disk, bitmap, freeblock, T, owner, -1);
      WroteSame(V0, T0, V1, T1, V(), T, inum, T0[inum].size, data, |data|);
      WroteContent(V0, T0, V(), T, inum, T0[inum].size, data);
      SpliceEnd(Content(V0, T0[inum]), data);
      return true;
    }

    /** write_bitmap: the array goes to the one bitmap block. */
    method WriteBitmap()
      requires |bitmap| == MAPSIZE && |disk| == FSSIZE
      modifies this`disk
      ensures disk == View(old(disk), bitmap)
    {
      var buf: Block := Zeros(BSIZE);
      var j := 0;
      while j < MAPSIZE
        invariant 0 <= j <= MAPSIZE && |buf| == BSIZE
        invariant forall m :: 0 <= m < BSIZE ==> buf[m] == if m < j then bitmap[m] else 0
      {
        buf := buf[j := bitmap[j]];
        j := j + 1;
      }
      assert buf == Pack(bitmap);
      disk := disk[SB.bmapstart := buf];
    }
  }

  lemma ZeroMap()
    ensures Marked(Zeros(MAPSIZE), 0)
  {
    forall b | 0 <= b < FSSIZE ensures !Used(Pack(Zeros(MAPSIZE)), b) { BitZero(b % 8); }
  }

  lemma MarkOne(m: seq<byte>, m': seq<byte>, n: nat)
    requires Marked(m, n) && |m'| == MAPSIZE && n < FSSIZE && Pack(m') == BlockWithBit(Pack(m), n, true)
    ensures Marked(m', n + 1)
  {
    hide BlockWithBit, Used;
    forall b | 0 <= b < FSSIZE ensures Used(Pack(m'), b) <==> b < n + 1 { UsedWithBit(Pack(m), n, true, b); }
  }

  const DOTNAME: Name := [DOT] + Zeros(DIRSIZ - 1)
  const DOTDOTNAME: Name := [DOT, DOT] + Zeros(DIRSIZ - 2)

  lemma DotKeys()
    ensures Key(DOTNAME) == [DOT] && Key(DOTDOTNAME) == [DOT, DOT]
  {
    KeyOf([DOT], DOTNAME);
    KeyOf([DOT, DOT], DOTDOTNAME);
  }

  /** The two entries of the root directory. */
  ghost function RootEntries(): (c: seq<byte>)
    ensures |c| == 2 * DESIZE
  {
    Dirent(ROOTINO, DOTNAME) + Dirent(ROOTINO, DOTDOTNAME)
  }

  lemma RootDir(n: nat)
    requires n > 1
    ensures var c := RootEntries();
            && Slots(c) == 2 && Inum(c, 0) == Inum(c, 1) == ROOTINO && DirOk(c, n)
            && DirMap(c) == map[[DOT] := ROOTINO, [DOT, DOT] := ROOTINO]
  {
    hide Key;
    var c := RootEntries();
    DotKeys();
    EntryParts(ROOTINO, DOTNAME);
    EntryParts(ROOTINO, DOTDOTNAME);
    assert c[0..2] == Dirent(ROOTINO, DOTNAME)[0..2] && c[2..16] == Dirent(ROOTINO, DOTNAME)[2..];
    assert c[16..18] == Dirent(ROOTINO, DOTDOTNAME)[0..2] && c[18..32] == Dirent(ROOTINO, DOTDOTNAME)[2..];
    assert Inum(c, 0) == ROOTINO && NameOf(c, 0) == DOTNAME;
    assert Inum(c, 1) == ROOTINO && NameOf(c, 1) == DOTDOTNAME;
    assert MapTo(c, 0) == map[];
    assert MapTo(c, 1) == map[[DOT] := ROOTINO];
  }

  /** The inode table with only the root directory. */
  lemma RootTidy(V: seq<Block>, T: seq<Dinode>, d: Dinode)
    requires T == Blanks()[ROOTINO := d] && IsDir(d) && d.nlink != 0 && Content(V, d) == RootEntries()
    ensures Tidy(V, T, map[]) && Listing(V, T, ROOTINO) == map[[DOT] := ROOTINO, [DOT, DOT] := ROOTINO]
  {
    hide Content, Inum, DirMap;
    RootDir(NINODES);
    forall i: nat, k: nat | Ent(V, T, i, k) != 0 ensures Ent(V, T, i, k) == ROOTINO {
      assert i == ROOTINO && (k == 0 || k == 1);
    }
  }

  /** A finished image. */
  lemma ImageMountable(disk0: seq<Block>, bitmap: seq<byte>, freeblock: nat, T: seq<Dinode>, owner: map<nat, Slot>,
      d: Dinode)
    requires Made(disk0, bitmap, freeblock, T, owner, -1) && |disk0| == FSSIZE && |bitmap| == MAPSIZE
    requires DecSuper(disk0[1]) == SB && SuperWord(disk0[1], 0) == FSMAGIC
    requires T == Blanks()[ROOTINO := d] && IsDir(d) && d.nlink != 0 && Content(View(disk0, bitmap), d) == RootEntries()
    ensures var disk := View(disk0, bitmap);
            Mountable(disk, SB, T, owner, map[]) && Home(disk, Geo(SB)) == disk
            && Listing(disk, T, ROOTINO) == map[[DOT] := ROOTINO, [DOT, DOT] := ROOTINO]
  {
    hide Consistent, Content, DecSuper, SuperWord, Home, Tidy, Listing, Get;
    var disk := View(disk0, bitmap);
    assert disk[2] == disk0[2] == Zeros(BSIZE);
    assert Count(disk[2]) == 0 by { GetZeros(disk[2], 0, 4); }
    EmptyLog(disk, Geo(SB));
    forall b | 0 <= b < FSSIZE ensures Mask(disk, Geo(SB))[b] == disk[b] {
      if InLog(Geo(SB), b) { assert disk[b] == disk0[b] == Zeros(BSIZE); }
    }
    assert Mask(disk, Geo(SB)) == disk;
    RootTidy(disk, T, d);
  }

  lemma MadeFree(disk: seq<Block>, bitmap: seq<byte>, freeblock: nat, b: nat)
    requires |disk| == FSSIZE && Marked(bitmap, freeblock) && freeblock <= b < FSSIZE
    ensures b in FreeBlocks(SB, View(disk, bitmap))
  {
    hide Used, Pack;
    assert View(disk, bitmap)[SB.bmapstart] == Pack(bitmap);
    assert !Used(Pack(bitmap), b);
  }

  /** main: the whole run of mkfs. */
  method Make() returns (im: Image)
    ensures Mountable(im.disk, SB, im.T, im.owner, map[]) && Home(im.disk, Geo(SB)) == im.disk
    ensures |im.T| == NINODES && im.T[ROOTINO].size == 2 * DESIZE && forall i :: 1 < i < NINODES ==> im.T[i] == Blank(0)
    ensures forall b: nat :: DataStart(SB) + 2 <= b < FSSIZE ==> b in FreeBlocks(SB, im.disk)
    ensures Listing(im.disk, im.T, ROOTINO) == map[[DOT] := ROOTINO, [DOT, DOT] := ROOTINO]
    ensures |im.disk| == 1000 && SuperBytes(im.disk[1])
  {
    hide SuperBytes, Made, Mountable, Listing, Content, DecSuper, SuperWord, Home, Span, Dirent, FreeBlocks, Marked;
    im := new Image.Plan();
    var root := im.Ialloc(T_DIR);
    SpanEntry(0);
    SpanEntry(1);
    MadeShape(im.disk, im.bitmap, im.freeblock, im.T, im.owner, -1);
    assert Content(im.V(), im.T[root]) == [] by { EmptyContent(im.V(), im.T[root]); }
    var ok := im.Iappend(root, Dirent(root, DOTNAME));
    ok := im.Iappend(root, Dirent(root, DOTDOTNAME));
    ghost var disk0 := im.disk;
    assert Content(im.V(), im.T[root]) == RootEntries();
    assert im.freeblock <= DataStart(SB) + 2;
    MadeShape(im.disk, im.bitmap, im.freeblock, im.T, im.owner, -1);
    im.WriteBitmap();
    forall b: nat | DataStart(SB) + 2 <= b < FSSIZE ensures b in FreeBlocks(SB, im.disk) {
      MadeFree(disk0, im.bitmap, im.freeblock, b);
    }
    ImageMountable(disk0, im.bitmap, im.freeblock, im.T, im.owner, im.T[root]);
  }

  lemma EmptyContent(V: seq<Block>, d: Dinode)
    requires WfFile(d) && d.size == 0
    ensures Content(V, d) == []
  {
  }
}
