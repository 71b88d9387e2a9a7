/** Address translation as the hardware does it (section 4.4 of the RISC-V Privileged Architecture): it
    knows a root and memory, and nothing of what the kernel means by them. */
module Sv39 {
  import opened Bytes
  import opened UserMem
  import opened Vm
  import opened ProcMem

  /** How much of the address space an entry of a table of `level` stands for. */
  function Span(level: nat): (n: nat)
    ensures n > 0
  {
    if level == 0 then 0x1000 else if level == 1 then 0x20_0000 else 0x4000_0000
  }

  /** The page that an entry points to: its bits 10 to 53. */
  function Frame(pte: nat): nat {
    pte / 0x400 % 0x1000_0000_0000 * 0x1000
  }

  /** The walk from the table at `a` on, to the leaf and its level. An entry without V is a page
      fault, one with R or X is a leaf, any other points to the next table. */
  function Walk(m: Mem, a: nat, va: nat, level: nat): (r: Option<(nat, nat)>)
    requires level <= 2
    ensures r.Some? ==> r.value.1 <= level
    decreases level
  {
    if a !in m then None
    else
      var pte := Get(m[a], 8 * (va / Span(level) % 512), 8);
      if pte % 2 == 0 then None
      else if pte / 2 % 2 == 1 || pte / 8 % 2 == 1 then Some((pte, level))
      else if level == 0 then None
      else Walk(m, Frame(pte), va, level - 1)
  }

  datatype Access = Load | Store | Execute

  /** The physical address that a user gets at with `va`: that must be the sign extension of its low
      39 bits, the leaf must have U and the right asked for, W goes with R, and a leaf above level 0
      must be aligned. */
  function Reach(m: Mem, root: nat, va: nat, how: Access): Option<nat>
    requires va < 0x1_0000_0000_0000_0000
  {
    if 0x40_0000_0000 <= va < 0xFFFF_FFC0_0000_0000 then None
    else match Walk(m, root, va, 2)
         case None => None
         case Some((pte, level)) =>
           if pte / 16 % 2 == 0 || (pte / 4 % 2 == 1 && pte / 2 % 2 == 0) || Frame(pte) % Span(level) != 0 then None
           else if pte / (match how case Load => 2 case Store => 4 case Execute => 8) % 2 == 0 then None
           else Some(Frame(pte) + va % Span(level))
  }

  lemma FrameIs(pte: nat)
    requires pte < U64 && PtePa(pte) < MAXPA
    ensures Frame(pte) == PtePa(pte)
  {
    var x := pte / 1024;
    var y := x % 0x10_0000_0000_0000;
    assert x == 0x10_0000_0000_0000 * (x / 0x10_0000_0000_0000) + y;
    assert x * 4096 == U64 * (x / 0x10_0000_0000_0000) + 4096 * y && 4096 * y < U64;
    assert PtePa(pte) == 4096 * y;
    assert x == 0x1000_0000_0000 * (0x100 * (x / 0x10_0000_0000_0000)) + y && y < 0x1000_0000_0000;
  }

  lemma PteRange(m: Mem, f: nat, idx: nat)
    requires f in m && idx < NPTE
    ensures Pte(m, f, idx) < U64
  {
    assert Pow256(8) == U64;
    EncDec(m[f][8 * idx..8 * idx + 8]);
  }

  /** The hardware's walk finds exactly what the kernel has mapped. */
  lemma {:induction false} WalkIs(m: Mem, own: map<nat, Role>, tbl: map<Pos, nat>, free: seq<nat>, root: nat, va: nat,
      level: nat)
    requires FramesOk(m, own, free) && TreeOk(m, own, tbl) && level <= 2 && Way(root, va, level) in tbl
    ensures var t := Trans(m, tbl, root, Vpn(va));
            Walk(m, tbl[Way(root, va, level)], va, level) ==
            if t.Some? && (t.value / 2 % 2 == 1 || t.value / 8 % 2 == 1) then Some((t.value, 0)) else None
  {
    hide FramesOk, TreeOk, Get, Above, VpnShift, Trans;
    var p := Way(root, va, level);
    var i := VpnMask(va, level);
    VpnParts(va);
    WayEntry(m, own, tbl, p, i);
    var pte := Pte(m, tbl[p], i);
    if level == 0 {
      LeafIs(m, tbl, root, va);
    } else {
      WayDown(m, own, tbl, root, va, level);
      if IsV(pte) {
        Pointer(pte);
        PteRange(m, tbl[p], i);
        WayEntry(m, own, tbl, Child(p, i), 0);
        FrameRange(m, own, free, tbl[Child(p, i)]);
        FrameIs(pte);
        WalkIs(m, own, tbl, free, root, va, level - 1);
      } else {
        NoWay(m, tbl, root, va);
      }
    }
  }

  lemma Pointer(pte: nat)
    requires pte % 1024 == 1
    ensures pte / 2 % 2 == 0 && pte / 8 % 2 == 0
  {
    LowBits(pte);
  }

  /** The low bits of an entry are those of its last ten. */
  lemma LowBits(pte: nat)
    ensures var p := pte % 1024;
            && pte / 2 % 2 == p / 2 % 2 && pte / 4 % 2 == p / 4 % 2 && pte / 8 % 2 == p / 8 % 2
            && pte / 16 % 2 == p / 16 % 2
  {
    var q, p := pte / 1024, pte % 1024;
    Shifted(q, p);
    Even(256 * q, p / 2);
    Even(128 * q, p / 4);
    Even(64 * q, p / 8);
    Even(32 * q, p / 16);
  }

  lemma Shifted(q: nat, p: nat)
    ensures (1024 * q + p) / 2 == 512 * q + p / 2 && (1024 * q + p) / 4 == 256 * q + p / 4
    ensures (1024 * q + p) / 8 == 128 * q + p / 8 && (1024 * q + p) / 16 == 64 * q + p / 16
  {
  }

  lemma LeafIs(m: Mem, tbl: map<Pos, nat>, root: nat, va: nat)
    requires Way(root, va, 0) in tbl && tbl[Way(root, va, 0)] in m
    ensures var pte := Pte(m, tbl[Way(root, va, 0)], VpnMask(va, 0));
            Trans(m, tbl, root, Vpn(va)) == if pte % 2 == 1 then Some(pte) else None
  {
    VpnParts(va);
  }

  lemma NoWay(m: Mem, tbl: map<Pos, nat>, root: nat, va: nat)
    requires Way(root, va, 0) !in tbl
    ensures Trans(m, tbl, root, Vpn(va)) == None
  {
    VpnParts(va);
  }

  /** The byte at a physical address. */
  function ByteAt(m: Mem, pa: nat): Option<byte> {
    var f := pa / 0x1000 * 0x1000;
    if f in m then Some(m[f][pa % 0x1000]) else None
  }

  lemma SlotIs(m: Mem, own: map<nat, Role>, tbl: map<Pos, nat>, slots: map<nat, Space>, trampoline: nat, i: nat)
    requires SlotsOk(m, own, tbl, slots, trampoline) && i in slots
    ensures SpaceOk(m, own, tbl, slots[i], trampoline)
  {
  }

  lemma Bits(pte: nat)
    ensures pte % 1024 == 0x1F ==> pte / 16 % 2 == 1 && pte / 8 % 2 == 1 && pte / 4 % 2 == 1 && pte / 2 % 2 == 1
    ensures pte % 1024 == 0x17 ==> pte / 16 % 2 == 1 && pte / 8 % 2 == 0 && pte / 4 % 2 == 1 && pte / 2 % 2 == 1
    ensures pte % 1024 == 0xB || pte % 1024 == 0x7 ==> pte / 16 % 2 == 0
  {
    LowBits(pte);
  }

  /** What a page number of a process is mapped to. */
  lemma Leaves(m: Mem, own: map<nat, Role>, tbl: map<Pos, nat>, free: seq<nat>, s: Space, trampoline: nat, v: nat)
    requires FramesOk(m, own, free) && Private(m, own, tbl) && SpaceOk(m, own, tbl, s, trampoline)
    ensures var t, p := Trans(m, tbl, s.root, v), Perm(m, tbl, s.root, v);
            t.Some? ==> && v < 0x400_0000 && t.value < U64 && p == t.value % 1024
                        && (p == 0x1F || p == 0x17 || p == 0xB || p == 0x7)
                        && (IsU(t.value) <==> p == 0x1F || p == 0x17)
                        && (IsU(t.value) ==> && Frame(t.value) in m && Frame(t.value) in own
                                             && Frame(t.value) == PtePa(t.value)
                                             && own[Frame(t.value)] == User(s.root, v))
  {
    hide FramesOk, Private, Trans, Pages;
    var t := Trans(m, tbl, s.root, v);
    TopPerms(m, tbl, s.root, trampoline, s.tf);
    if t.Some? {
      TransRange(m, tbl, s.root, v);
      Bits(t.value);
      if v != Vpn(TRAMPOLINE) && v != Vpn(TRAPFRAME) { assert Rest(m, tbl, s.root, v); }
      if IsU(t.value) {
        UserOwned(m, own, tbl, s.root, v);
        FrameRange(m, own, free, PtePa(t.value));
        FrameIs(t.value);
      }
    }
  }

  lemma TransRange(m: Mem, tbl: map<Pos, nat>, root: nat, v: nat)
    requires Trans(m, tbl, root, v).Some?
    ensures Trans(m, tbl, root, v).value < U64
  {
    PteRange(m, tbl[Pos(root, 0, v / NPTE)], v % NPTE);
  }

  lemma PageByte(f: nat, va: nat)
    requires f % 0x1000 == 0
    ensures (f + va % 0x1000) / 0x1000 * 0x1000 == f && (f + va % 0x1000) % 0x1000 == va % 0x1000
  {
  }

  /** What the hardware lets a process do: it can load and store at exactly the addresses of its memory
      as the kernel sees it, gets there the bytes that the kernel sees there, and reaches no page but
      its own; it can execute what is not its stack. */
  lemma HardwareView(m: Mem, own: map<nat, Role>, tbl: map<Pos, nat>, free: seq<nat>, s: Space, trampoline: nat,
      va: nat, how: Access)
    requires FramesOk(m, own, free) && TreeOk(m, own, tbl) && Private(m, own, tbl)
             && SpaceOk(m, own, tbl, s, trampoline) && va < 0x1_0000_0000_0000_0000
    ensures var u, pa := Flat(m, tbl, s.root), Reach(m, s.root, va, how);
            && (pa.Some? <==> va in u && (how == Execute ==> Perm(m, tbl, s.root, va / 0x1000) == 0x1F))
            && (pa.Some? ==> && ByteAt(m, pa.value) == Some(u[va]) && pa.value / 0x1000 * 0x1000 in own
                             && own[pa.value / 0x1000 * 0x1000] == User(s.root, va / 0x1000))
  {
    hide FramesOk, TreeOk, Private, Trans, Flat, SpaceOk, Walk;
    SpaceOwns(m, own, tbl, s, trampoline);
    RootWay(m, own, tbl, s.root, va);
    WalkIs(m, own, tbl, free, s.root, va, 2);
    Leaves(m, own, tbl, free, s, trampoline, Vpn(va));
    FlatKeys(m, tbl, s.root, va);
    PageNumber64(va);
    var t := Trans(m, tbl, s.root, Vpn(va));
    if t.Some? {
      Bits(t.value);
      PageByte(Frame(t.value), va);
    }
  }

  lemma FlatKeys(m: Mem, tbl: map<Pos, nat>, root: nat, va: nat)
    ensures var t := Trans(m, tbl, root, Vpn(va));
            && (va in Flat(m, tbl, root) <==> va < VASPACE && t.Some? && IsU(t.value) && PtePa(t.value) in m)
            && (va in Flat(m, tbl, root) ==> Flat(m, tbl, root)[va] == m[PtePa(t.value)][va % 0x1000])
  {
    hide Trans;
  }

  lemma PageNumber64(va: nat)
    requires va < 0x1_0000_0000_0000_0000
    ensures va < VASPACE ==> Vpn(va) == va / 0x1000
    ensures va < 0x40_0000_0000 ==> va < VASPACE
    ensures 0x40_0000_0000 <= va < VASPACE || 0xFFFF_FFC0_0000_0000 <= va ==> Vpn(va) >= 0x400_0000
  {
    if 0xFFFF_FFC0_0000_0000 <= va {
      var k := va - 0xFFFF_FFC0_0000_0000;
      assert va / 0x1000 == 0xF_FFFF_FC00_0000 + k / 0x1000;
      assert va / 0x1000 == 0x800_0000 * 0x1FF_FFFF + (0x400_0000 + k / 0x1000);
    }
  }

  /** The same of every process in every state of a run. */
  lemma RunView(tr: seq<State>, es: seq<Call>, rs: seq<bool>, trampoline: nat, k: nat, i: nat, va: nat, how: Access)
    requires IsRun(tr, es, rs, trampoline) && k <= |rs| && i in tr[k].slots && va < 0x1_0000_0000_0000_0000
    ensures var s := tr[k]; var u, pa := Flat(s.m, s.tbl, s.slots[i].root), Reach(s.m, s.slots[i].root, va, how);
            && (pa.Some? <==> va in u && (how == Execute ==> Perm(s.m, s.tbl, s.slots[i].root, va / 0x1000) == 0x1F))
            && (pa.Some? ==> ByteAt(s.m, pa.value) == Some(u[va]))
  {
    hide FramesOk, ListOk, TreeOk, Private, Trans, Flat, SlotsOk, SpaceOk, Moved, Walk;
    var s := tr[k];
    assert StateOk(s, trampoline);
    SlotIs(s.m, s.own, s.tbl, s.slots, trampoline, i);
    HardwareView(s.m, s.own, s.tbl, s.free, s.slots[i], trampoline, va, how);
  }
}
