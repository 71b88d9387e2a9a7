/** The on-disk format of include/fs.h and kernel/log.c byte by byte, as another reader of the disk
    would have it, and that the model reads and writes it so. */
module Layout {
  import opened Bytes
  import opened LogSpec
  import opened FsSpec
  import opened FsState
  import opened Dir

  /** The little-endian words of two and of four bytes at offset `o`. */
  function U2(s: seq<byte>, o: nat): nat
    requires o + 2 <= |s|
  {
    s[o] as int + 0x100 * s[o + 1] as int
  }

  function U4(s: seq<byte>, o: nat): nat
    requires o + 4 <= |s|
  {
    s[o] as int + 0x100 * s[o + 1] as int + 0x1_0000 * s[o + 2] as int + 0x100_0000 * s[o + 3] as int
  }

  lemma Words(s: seq<byte>, o: nat)
    ensures o + 2 <= |s| ==> Get(s, o, 2) == U2(s, o)
    ensures o + 4 <= |s| ==> Get(s, o, 4) == U4(s, o)
  {
    if o + 2 <= |s| { LittleEndian(s[o..o + 2]); }
    if o + 4 <= |s| { LittleEndian(s[o..o + 4]); }
  }

  /** The superblock: magic, size, data blocks, inodes, log blocks, and where the log, the inodes and
      the bitmap start. */
  lemma SuperLayout(b: Block, sb: Superblock)
    ensures SuperIs(sb, b) <==>
            U4(b, 0) == 0x1020_3040 && sb == Superblock(U4(b, 4), U4(b, 12), U4(b, 16), U4(b, 20), U4(b, 24), U4(b, 28))
  {
    Words(b, 0);
    Words(b, 4);
    Words(b, 12);
    Words(b, 16);
    Words(b, 20);
    Words(b, 24);
    Words(b, 28);
  }

  /** The log header: the count, then the block numbers. */
  lemma HeaderLayout(h: Block, i: nat)
    requires i < 30
    ensures Count(h) == U4(h, 0) && Entry(h, i) == U4(h, 4 * i + 4)
  {
    Words(h, 0);
    Words(h, 4 * i + 4);
  }

  /** The bitmap: block `b` is bit `b % 8` of byte `b / 8`, the low bit first. */
  lemma BitmapLayout(m: Block, b: nat)
    requires b < 8192
    ensures var k, x := b % 8, m[b / 8];
            Used(m, b) <==> x / (if k == 0 then 1 else if k == 1 then 2 else if k == 2 then 4 else if k == 3 then 8
                                 else if k == 4 then 16 else if k == 5 then 32 else if k == 6 then 64 else 128) % 2 == 1
  {
    var x := m[b / 8];
    BitAt(x);
  }

  lemma BitAt(x: nat)
    ensures Bit(x, 0) == (x % 2 == 1) && Bit(x, 1) == (x / 2 % 2 == 1) && Bit(x, 2) == (x / 4 % 2 == 1)
    ensures Bit(x, 3) == (x / 8 % 2 == 1) && Bit(x, 4) == (x / 16 % 2 == 1) && Bit(x, 5) == (x / 32 % 2 == 1)
    ensures Bit(x, 6) == (x / 64 % 2 == 1) && Bit(x, 7) == (x / 128 % 2 == 1) && Bit(x, 9) == (x / 512 % 2 == 1)
  {
    hide Bit;
    assert x / 2 / 2 == x / 4 && x / 8 / 2 == x / 16 && x / 8 / 2 / 2 == x / 32 && x / 8 / 8 == x / 64;
    assert x / 8 / 8 / 2 == x / 128 && x / 8 / 8 / 8 == x / 512;
    BitLow(x);
    BitLow(x / 8);
    BitLow(x / 8 / 8);
    BitLow(x / 8 / 8 / 8);
    BitThree(x, 3);
    BitThree(x, 4);
    BitThree(x, 5);
    BitThree(x, 6);
    BitThree(x, 7);
    BitThree(x, 9);
    BitThree(x / 8, 3);
    BitThree(x / 8, 4);
    BitThree(x / 8, 6);
    BitThree(x / 8 / 8, 3);
  }

  lemma BitLow(x: nat)
    ensures Bit(x, 0) == (x % 2 == 1) && Bit(x, 1) == (x / 2 % 2 == 1) && Bit(x, 2) == (x / 2 / 2 % 2 == 1)
  {
    BitNext(x, 0);
    BitNext(x, 1);
    BitNext(x / 2, 0);
    BitNext(x / 2 / 2, 0);
  }

  lemma BitThree(x: nat, k: nat)
    requires k >= 3
    ensures Bit(x, k) == Bit(x / 8, k - 3)
  {
    BitNext(x, k - 1);
    BitNext(x / 2, k - 2);
    BitNext(x / 2 / 2, k - 3);
    assert x / 2 / 2 / 2 == x / 8;
  }

  lemma BitNext(x: nat, k: nat)
    ensures Bit(x, k + 1) == Bit(x / 2, k) && Bit(x, 0) == (x % 2 == 1)
  {
  }

  /** Inode `i` is in block `i / 16` of the inode region, 64 bytes to an inode. */
  lemma InodeLayout(sb: Superblock, V: seq<Block>, i: nat)
    requires sb.inodestart + i / 16 < |V|
    ensures var b, o, d := V[sb.inodestart + i / 16], 64 * (i % 16), DiskInode(sb, V, i);
            && d.typ == U2(b, o) && d.major == U2(b, o + 2) && d.minor == U2(b, o + 4) && d.nlink == U2(b, o + 6)
            && d.size == U4(b, o + 8) && |d.addrs| == 13
            && forall k :: 0 <= k < 13 ==> d.addrs[k] == U4(b, o + 12 + 4 * k)
  {
    hide Get, U2, U4;
    var b, o, d := V[sb.inodestart + i / 16], 64 * (i % 16), DiskInode(sb, V, i);
    InSlice(b, o, 0);
    InSlice(b, o, 2);
    InSlice(b, o, 4);
    InSlice(b, o, 6);
    InSlice(b, o, 8);
    forall k | 0 <= k < 13 ensures d.addrs[k] == U4(b, o + 12 + 4 * k) { InSlice(b, o, 12 + 4 * k); }
  }

  lemma InSlice(b: Block, o: nat, off: nat)
    requires o + 64 <= |b| && off + 4 <= 64
    ensures Get(b[o..o + 64], off, 2) == U2(b, o + off) && Get(b[o..o + 64], off, 4) == U4(b, o + off)
  {
    Words(b, o + off);
    assert b[o..o + 64][off..off + 2] == b[o + off..o + off + 2];
    assert b[o..o + 64][off..off + 4] == b[o + off..o + off + 4];
  }

  /** The block of file block `bn` of inode `i`: twelve pointers in the inode, and behind the thirteenth
      a block of 256 more. */
  function RawPtr(V: seq<Block>, inodestart: nat, i: nat, bn: nat): nat
    requires inodestart + i / 16 < |V| && bn < 268
  {
    var b, o := V[inodestart + i / 16], 64 * (i % 16);
    if bn < 12 then U4(b, o + 12 + 4 * bn)
    else
      var root := U4(b, o + 60);
      if 0 < root < |V| then U4(V[root], 4 * (bn - 12)) else 0
  }

  /** Byte `p` of file `i`, read from the image; a hole reads as zero. */
  function RawByte(V: seq<Block>, inodestart: nat, i: nat, p: nat): byte
    requires inodestart + i / 16 < |V| && p < 1024 * 268
  {
    var q := RawPtr(V, inodestart, i, p / 1024);
    if 0 < q < |V| then V[q][p % 1024] else 0
  }

  /** What the model calls the contents of a file is what is on the disk in this format. */
  lemma FileLayout(sb: Superblock, V: seq<Block>, T: seq<Dinode>, owner: map<nat, Slot>, i: nat, p: nat)
    requires SbOk(sb) && |T| == sb.ninodes && Consistent(sb, V, T, owner, -1) && i < |T|
    ensures sb.inodestart + i / 16 < |V| && WfFile(T[i])
    ensures var b, o := V[sb.inodestart + i / 16], 64 * (i % 16);
            && T[i].typ == U2(b, o) && T[i].nlink == U2(b, o + 6) && T[i].size == U4(b, o + 8)
            && (p < T[i].size ==> p < 1024 * 268 && Content(V, T[i])[p] == RawByte(V, sb.inodestart, i, p))
  {
    hide Owned, Bits, Zeroed;
    OwnedTable(sb, V, T, owner);
    assert T[i] == DiskInode(sb, V, i);
    InodeLayout(sb, V, i);
    if p < T[i].size { PtrLayout(sb, V, i, p / 1024); }
  }

  lemma OwnedTable(sb: Superblock, V: seq<Block>, T: seq<Dinode>, owner: map<nat, Slot>)
    requires Owned(sb, V, T, owner)
    ensures |V| >= sb.size && WfTable(T)
  {
  }

  lemma PtrLayout(sb: Superblock, V: seq<Block>, i: nat, bn: nat)
    requires sb.inodestart + i / 16 < |V| && bn < 268
    ensures |DiskInode(sb, V, i).addrs| == 13
            && Ptr(V, DiskInode(sb, V, i), SlotOf(bn)) == RawPtr(V, sb.inodestart, i, bn)
  {
    InodeLayout(sb, V, i);
    var d := DiskInode(sb, V, i);
    if bn >= 12 && 0 < d.addrs[12] < |V| { Words(V[d.addrs[12]], 4 * (bn - 12)); }
  }
}
