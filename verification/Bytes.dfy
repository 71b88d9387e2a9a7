/** Bytes, little-endian words and in-place overlays of byte ranges. */
module Bytes {
  type byte = x: int | 0 <= x < 256

  const BSIZE := 1024

  /** One disk block. */
  type Block = s: seq<byte> | |s| == BSIZE witness seq(BSIZE, _ => 0)

  function Zeros(n: nat): (z: seq<byte>)
    ensures |z| == n && forall i :: 0 <= i < n ==> z[i] == 0
  {
    seq(n, _ => 0)
  }

  /** `s` with the bytes from `off` on replaced by `d`. */
  function Overlay(s: seq<byte>, off: nat, d: seq<byte>): (r: seq<byte>)
    requires off + |d| <= |s|
    ensures |r| == |s|
    ensures forall i :: 0 <= i < |s| ==> r[i] == if off <= i < off + |d| then d[i - off] else s[i]
  {
    s[..off] + d + s[off + |d|..]
  }

  /** The `k` low bytes of `v`, least significant first. */
  function Enc(v: nat, k: nat): (r: seq<byte>)
    ensures |r| == k
  {
    if k == 0 then [] else [v % 256] + Enc(v / 256, k - 1)
  }

  function Dec(s: seq<byte>): (v: nat)
  {
    if s == [] then 0 else s[0] + 256 * Dec(s[1..])
  }

  function Pow256(k: nat): (p: nat)
    ensures p >= 1
  {
    if k == 0 then 1 else 256 * Pow256(k - 1)
  }

  lemma {:induction false} DecEnc(v: nat, k: nat)
    requires v < Pow256(k)
    ensures Dec(Enc(v, k)) == v
  {
    if k > 0 {
      DecEnc(v / 256, k - 1);
      assert Enc(v, k)[1..] == Enc(v / 256, k - 1);
    }
  }

  /** The low byte comes first: the words of two, four and eight bytes, byte by byte. */
  lemma LittleEndian(s: seq<byte>)
    ensures |s| == 2 ==> Dec(s) == s[0] as int + 0x100 * s[1] as int
    ensures |s| == 4 ==> Dec(s) == s[0] as int + 0x100 * s[1] as int + 0x1_0000 * s[2] as int + 0x100_0000 * s[3] as int
    ensures |s| == 8 ==> Dec(s) == Dec(s[..4]) + 0x1_0000_0000 * Dec(s[4..])
  {
    if |s| == 2 {
      DecStep(s);
      DecStep(s[1..]);
    } else if |s| == 4 {
      DecFour(s, []);
      assert s[4..] == [];
    } else if |s| == 8 {
      DecFour(s, s[4..]);
      DecFour(s[..4], []);
      assert s == s[..4] + s[4..] && s[..4][4..] == [];
    }
  }

  lemma DecStep(s: seq<byte>)
    ensures Dec(s) == if s == [] then 0 else s[0] + 256 * Dec(s[1..])
  {
  }

  lemma DecFour(s: seq<byte>, rest: seq<byte>)
    requires |s| >= 4 && s[4..] == rest
    ensures Dec(s) == s[0] as int + 0x100 * s[1] as int + 0x1_0000 * s[2] as int + 0x100_0000 * s[3] as int
                      + 0x1_0000_0000 * Dec(rest)
  {
    DecStep(s);
    DecStep(s[1..]);
    DecStep(s[2..]);
    DecStep(s[3..]);
    assert s[1..][1..] == s[2..] && s[2..][1..] == s[3..] && s[3..][1..] == s[4..];
  }

  lemma LowByte(b: byte, r: nat)
    ensures (b + 256 * r) % 256 == b && (b + 256 * r) / 256 == r
  {
  }

  lemma {:induction false} EncDec(s: seq<byte>)
    ensures Dec(s) < Pow256(|s|) && Enc(Dec(s), |s|) == s
  {
    if s != [] {
      EncDec(s[1..]);
      LowByte(s[0], Dec(s[1..]));
      assert Enc(Dec(s), |s|) == [s[0]] + Enc(Dec(s[1..]), |s| - 1);
      assert s == [s[0]] + s[1..];
    }
  }

  /** The `k`-byte little-endian word at offset `off`. */
  function Get(s: seq<byte>, off: nat, k: nat): (v: nat)
    requires off + k <= |s|
  {
    Dec(s[off..off + k])
  }

  function Put(s: seq<byte>, off: nat, k: nat, v: nat): (r: seq<byte>)
    requires off + k <= |s|
    ensures |r| == |s|
  {
    Overlay(s, off, Enc(v, k))
  }

  lemma GetPutSame(s: seq<byte>, off: nat, k: nat, v: nat)
    requires off + k <= |s| && v < Pow256(k)
    ensures Get(Put(s, off, k, v), off, k) == v
  {
    assert Put(s, off, k, v)[off..off + k] == Enc(v, k);
    DecEnc(v, k);
  }

  lemma GetOverlayOther(s: seq<byte>, off: nat, d: seq<byte>, o: nat, k: nat)
    requires off + |d| <= |s| && o + k <= |s|
    requires o + k <= off || off + |d| <= o
    ensures Get(Overlay(s, off, d), o, k) == Get(s, o, k)
  {
    assert Overlay(s, off, d)[o..o + k] == s[o..o + k];
  }

  lemma {:induction false} DecZeros(s: seq<byte>)
    requires forall i :: 0 <= i < |s| ==> s[i] == 0
    ensures Dec(s) == 0
  {
    if s != [] { DecZeros(s[1..]); }
  }

  lemma OverlayAll(m: Block, d: Block)
    ensures Overlay(m, 0, d) == d
  {
  }

  lemma SliceJoin(s: seq<byte>, a: nat, b: nat, c: nat)
    requires a <= b <= c <= |s|
    ensures s[a..b] + s[b..c] == s[a..c]
  {
  }

  /** A duplicate-free sequence inside a set is no longer than the set. */
  lemma {:induction false} Card(l: seq<nat>, s: set<nat>, k: nat)
    requires k <= |l| && forall j :: 0 <= j < k ==> l[j] in s
    requires forall i, j :: 0 <= i < j < k ==> l[i] != l[j]
    ensures k <= |s|
  {
    if k > 0 { Card(l, s - {l[k - 1]}, k - 1); }
  }
}
