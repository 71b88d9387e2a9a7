/** The on-disk file system of include/fs.h as functions of the block image, and what it
    means for its parts to be consistent. */
module FsSpec {
  import opened Bytes
  import opened LogSpec

  const NDIRECT := 12
  const NINDIRECT := 256
  const MAXFILE := NDIRECT + NINDIRECT
  const ROOT := NDIRECT            // pointer slot of the indirect block
  const NPTR := NDIRECT + 1 + NINDIRECT
  const DISIZE := 64
  const IPB := 16
  const BPB := 8192
  const MAXBYTES := MAXFILE * BSIZE
  const U16 := 0x1_0000
  const U32 := 0x1_0000_0000

  const T_DIR := 1
  const T_FILE := 2

  datatype Superblock = Superblock(
    size: nat, ninodes: nat, nlog: nat, logstart: nat, inodestart: nat, bmapstart: nat)

  function Geo(sb: Superblock): Geometry {
    Geometry(sb.logstart, sb.nlog, sb.inodestart)
  }

  /** The first block after the metadata. */
  function DataStart(sb: Superblock): nat {
    sb.bmapstart + 1
  }

  /** The layout mkfs writes: [boot|super|log|inodes|bitmap|data], one bitmap block. */
  predicate SbOk(sb: Superblock) {
    && 1 < sb.logstart && 2 * LOGOP <= sb.nlog <= HDRMAX
    && sb.logstart + sb.nlog <= sb.inodestart
    && 1 < sb.ninodes <= U16
    && sb.inodestart + sb.ninodes / IPB + 1 <= sb.bmapstart
    && DataStart(sb) <= sb.size <= BPB
  }

  const FSMAGIC := 0x10203040

  /** Word `k` of the superblock, in the order of struct superblock. */
  function SuperWord(b: Block, k: nat): nat
    requires k < 8
  {
    Get(b, 4 * k, 4)
  }

  function DecSuper(b: Block): Superblock {
    Superblock(SuperWord(b, 1), SuperWord(b, 3), SuperWord(b, 4), SuperWord(b, 5), SuperWord(b, 6), SuperWord(b, 7))
  }

  predicate SuperIs(sb: Superblock, b: Block) {
    DecSuper(b) == sb && SuperWord(b, 0) == FSMAGIC
  }

  /** The superblock is where readsb looks for it. */
  predicate SuperOk(sb: Superblock, V: seq<Block>) {
    |V| > 1 && SuperIs(sb, V[1])
  }

  datatype Dinode = Dinode(typ: nat, major: nat, minor: nat, nlink: nat, size: nat, addrs: seq<nat>)

  function Zeroes(n: nat): (z: seq<nat>)
    ensures |z| == n && forall k :: 0 <= k < n ==> z[k] == 0
  {
    seq(n, _ => 0)
  }

  /** An empty inode of type `typ`, as ialloc leaves it. */
  function Blank(typ: nat): Dinode {
    Dinode(typ, 0, 0, 0, 0, Zeroes(NDIRECT + 1))
  }

  predicate WfDinode(d: Dinode) {
    && d.typ < U16 && d.major < U16 && d.minor < U16 && d.nlink < U16 && d.size < U32
    && |d.addrs| == NDIRECT + 1 && forall k :: 0 <= k <= NDIRECT ==> d.addrs[k] < U32
  }

  function EncAddrs(a: seq<nat>): (r: seq<byte>)
    ensures |r| == 4 * |a|
  {
    if a == [] then [] else Enc(a[0], 4) + EncAddrs(a[1..])
  }

  function EncDinode(d: Dinode): (r: seq<byte>)
    requires |d.addrs| == NDIRECT + 1
    ensures |r| == DISIZE
  {
    Enc(d.typ, 2) + Enc(d.major, 2) + Enc(d.minor, 2) + Enc(d.nlink, 2) + Enc(d.size, 4) + EncAddrs(d.addrs)
  }

  function DecDinode(r: seq<byte>): Dinode
    requires |r| == DISIZE
  {
    Dinode(Get(r, 0, 2), Get(r, 2, 2), Get(r, 4, 2), Get(r, 6, 2), Get(r, 8, 4),
      seq(NDIRECT + 1, k requires 0 <= k <= NDIRECT => Get(r, 12 + 4 * k, 4)))
  }

  lemma {:induction false} EncAddrsAt(a: seq<nat>, k: nat)
    requires k < |a| && forall j :: 0 <= j < |a| ==> a[j] < U32
    ensures EncAddrs(a)[4 * k..4 * k + 4] == Enc(a[k], 4)
  {
    var r := EncAddrs(a);
    if k == 0 {
      assert r[0..4] == Enc(a[0], 4);
    } else {
      EncAddrsAt(a[1..], k - 1);
      assert r[4 * k..4 * k + 4] == EncAddrs(a[1..])[4 * (k - 1)..4 * (k - 1) + 4];
    }
  }

  /** iupdate then ilock: the inode comes back. */
  lemma DinodeRoundTrip(d: Dinode)
    requires WfDinode(d)
    ensures DecDinode(EncDinode(d)) == d
  {
    hide Enc, EncAddrs;
    var r := EncDinode(d);
    assert Pow256(2) == U16 && Pow256(4) == U32;
    assert r[0..2] == Enc(d.typ, 2);
    assert r[2..4] == Enc(d.major, 2);
    assert r[4..6] == Enc(d.minor, 2);
    assert r[6..8] == Enc(d.nlink, 2);
    assert r[8..12] == Enc(d.size, 4);
    DecEnc(d.typ, 2); DecEnc(d.major, 2); DecEnc(d.minor, 2); DecEnc(d.nlink, 2); DecEnc(d.size, 4);
    forall k | 0 <= k <= NDIRECT ensures Get(r, 12 + 4 * k, 4) == d.addrs[k] {
      EncAddrsAt(d.addrs, k);
      assert r[12 + 4 * k..12 + 4 * k + 4] == EncAddrs(d.addrs)[4 * k..4 * k + 4];
      DecEnc(d.addrs[k], 4);
    }
    assert DecDinode(r).addrs == d.addrs;
  }

  function IBlock(sb: Superblock, i: nat): nat {
    sb.inodestart + i / IPB
  }

  function IOff(i: nat): (o: nat)
    ensures o + DISIZE <= BSIZE
  {
    DISIZE * (i % IPB)
  }

  /** The on-disk inode `i`. */
  function DiskInode(sb: Superblock, V: seq<Block>, i: nat): Dinode
    requires IBlock(sb, i) < |V|
  {
    DecDinode(V[IBlock(sb, i)][IOff(i)..IOff(i) + DISIZE])
  }

  /** Binary digit `k`, and the number with that digit set or cleared: `x & (1 << k)`,
      `x | (1 << k)` and `x & ~(1 << k)`. */
  function Bit(x: nat, k: nat): bool {
    if k == 0 then x % 2 == 1 else Bit(x / 2, k - 1)
  }

  function WithBit(x: nat, k: nat, v: bool): nat {
    if k == 0 then x / 2 * 2 + (if v then 1 else 0) else 2 * WithBit(x / 2, k - 1, v) + x % 2
  }

  function Pow2(n: nat): nat {
    if n == 0 then 1 else 2 * Pow2(n - 1)
  }

  lemma {:induction false} WithBitAt(x: nat, k: nat, v: bool, j: nat)
    ensures Bit(WithBit(x, k, v), j) == if j == k then v else Bit(x, j)
  {
    if k > 0 && j > 0 { WithBitAt(x / 2, k - 1, v, j - 1); }
  }

  lemma {:induction false} WithBitBound(x: nat, k: nat, v: bool, n: nat)
    requires k < n && x < Pow2(n)
    ensures WithBit(x, k, v) < Pow2(n)
  {
    Halves(x, Pow2(n - 1));
    if k > 0 {
      WithBitBound(x / 2, k - 1, v, n - 1);
      Doubled(WithBit(x / 2, k - 1, v), x, Pow2(n - 1));
    }
  }

  lemma Halves(x: nat, p: nat)
    requires x < 2 * p
    ensures x / 2 < p && x / 2 * 2 + 1 < 2 * p
  {
  }

  lemma Doubled(y: nat, x: nat, p: nat)
    requires y < p
    ensures 2 * y + x % 2 < 2 * p
  {
  }

  function ByteWith(x: byte, k: nat, v: bool): (r: byte)
    requires k < 8
  {
    WithBitBound(x, k, v, 8);
    assert Pow2(8) == 256;
    WithBit(x, k, v)
  }

  /** The bitmap block with the bit of block `b` set or cleared. */
  function BlockWithBit(m: Block, b: nat, v: bool): Block
    requires b < BPB
  {
    m[b / 8 := ByteWith(m[b / 8], b % 8, v)]
  }

  function Used(m: Block, b: nat): bool
    requires b < BPB
  {
    Bit(m[b / 8], b % 8)
  }

  lemma UsedWithBit(m: Block, b: nat, v: bool, c: nat)
    requires b < BPB && c < BPB
    ensures Used(BlockWithBit(m, b, v), c) == if c == b then v else Used(m, c)
  {
    WithBitAt(m[b / 8], b % 8, v, c % 8);
  }
}
