/** Physical pages (kernel/pmm.c) and Sv39 page tables (kernel/vm.c, include/riscv.h; section
    4.4 of the RISC-V Privileged Architecture). A page is addressed by its physical address. */
module Vm {
  import opened Bytes
  import opened UserMem

  const PGSIZE := 4096
  const NPTE := 512
  const U64 := 0x1_0000_0000_0000_0000
  const MAXPA := 0x100_0000_0000_0000    // 56-bit physical addresses
  const VASPACE := 0x80_0000_0000        // 39-bit virtual addresses

  type Page = s: seq<byte> | |s| == PGSIZE witness seq(PGSIZE, _ => 0)

  /** The permission bits of a page table entry. */
  const PTE_V := 1
  const PTE_R := 2
  const PTE_W := 4
  const PTE_X := 8
  const PTE_U := 16

  predicate IsV(pte: nat) { pte % 2 == 1 }
  predicate IsU(pte: nat) { pte / 16 % 2 == 1 }

  /** PTE_PA and PA_PTE. */
  function PtePa(pte: nat): nat { pte / 1024 * PGSIZE % U64 }
  function PaPte(pa: nat): nat { pa / PGSIZE * 1024 }

  /** `PA_PTE(pa) | perm | PTE_V`; the shifted address has its ten low bits clear. */
  function MakePte(pa: nat, perm: nat): nat
    requires perm < 1024
  {
    PaPte(pa) + if IsV(perm) then perm else perm + PTE_V
  }

  lemma MakePteParts(pa: nat, perm: nat)
    requires perm < 1024 && pa % PGSIZE == 0 && pa < MAXPA
    ensures MakePte(pa, perm) < U64 && IsV(MakePte(pa, perm)) && PtePa(MakePte(pa, perm)) == pa
    ensures IsU(MakePte(pa, perm)) == IsU(perm) && MakePte(pa, perm) / 1024 == pa / 4096
            && MakePte(pa, perm) % 1024 == (if perm % 2 == 1 then perm else perm + 1)
  {
    var q, p := pa / PGSIZE, if IsV(perm) then perm else perm + PTE_V;
    var pte := MakePte(pa, perm);
    assert pa == PGSIZE * q && pte == 1024 * q + p && p < 1024;
    Fields(q, p);
    assert p / 16 == perm / 16;
  }

  lemma Fields(q: nat, p: nat)
    requires p < 1024
    ensures (1024 * q + p) / 1024 == q && (1024 * q + p) % 1024 == p
    ensures (1024 * q + p) % 2 == p % 2 && (1024 * q + p) / 16 % 2 == p / 16 % 2
  {
    Even(512 * q, p);
    assert (1024 * q + p) / 16 == 64 * q + p / 16;
    Even(32 * q, p / 16);
  }

  lemma Even(a: nat, b: nat)
    ensures (2 * a + b) % 2 == b % 2
  {
  }

  /** `va >> VPN_SHIFT(level)`, VPN_MASK(va, level), and the virtual page number that the three
      indices make up. */
  function VpnShift(va: nat, level: nat): nat {
    if level == 0 then va / PGSIZE else VpnShift(va, level - 1) / NPTE
  }

  function VpnMask(va: nat, level: nat): (i: nat)
    ensures i < NPTE
  {
    VpnShift(va, level) % NPTE
  }

  const NVPN := 0x800_0000

  function Vpn(va: nat): (v: nat)
    ensures v < NVPN
  {
    va / PGSIZE % NVPN
  }

  /** The part of the page number above the index of `level`. */
  function Above(va: nat, level: nat): nat
    requires level <= 2
  {
    if level == 2 then 0 else if level == 1 then VpnMask(va, 2) else VpnMask(va, 2) * NPTE + VpnMask(va, 1)
  }

  lemma VpnParts(va: nat)
    ensures VpnMask(va, 0) == va / 0x1000 % 512 && VpnMask(va, 1) == va / 0x20_0000 % 512
            && VpnMask(va, 2) == va / 0x4000_0000 % 512
    ensures Vpn(va) == (VpnMask(va, 2) * NPTE + VpnMask(va, 1)) * NPTE + VpnMask(va, 0)
    ensures Vpn(va) / NPTE == Above(va, 0) && Vpn(va) % NPTE == VpnMask(va, 0)
  {
    assert VpnShift(va, 1) == VpnShift(va, 0) / NPTE && VpnShift(va, 2) == VpnShift(va, 1) / NPTE;
    assert va / 0x20_0000 == va / 0x1000 / 512 && va / 0x4000_0000 == va / 0x20_0000 / 512;
    Digits(va / PGSIZE, VpnShift(va, 1), VpnShift(va, 2));
  }

  lemma Digits(n: nat, a: nat, b: nat)
    requires a == n / NPTE && b == a / NPTE
    ensures n % NVPN == (b % NPTE * NPTE + a % NPTE) * NPTE + n % NPTE
  {
    var low := (b % NPTE * NPTE + a % NPTE) * NPTE + n % NPTE;
    assert n == NVPN * (b / NPTE) + low && low < NVPN;
  }

  /** PGGROUNDDOWN and PGGROUNDUP. */
  function RoundDown(a: nat): nat { a / PGSIZE * PGSIZE }
  function RoundUp(a: nat): nat { (a + PGSIZE - 1) / PGSIZE * PGSIZE }

  type Mem = map<nat, Page>

  /** Entry `idx` of the page at `f`. */
  function Pte(m: Mem, f: nat, idx: nat): (pte: nat)
    requires f in m && idx < NPTE
  {
    Get(m[f], 8 * idx, 8)
  }

  function WithPte(m: Mem, f: nat, idx: nat, v: nat): Mem
    requires f in m && idx < NPTE
  {
    m[f := Put(m[f], 8 * idx, 8, v)]
  }

  lemma PteWritten(m: Mem, f: nat, idx: nat, v: nat, k: nat)
    requires f in m && idx < NPTE && k < NPTE && v < U64
    ensures Pte(WithPte(m, f, idx, v), f, k) == if k == idx then v else Pte(m, f, k)
  {
    assert Pow256(8) == U64;
    GetPutSame(m[f], 8 * idx, 8, v);
    if k != idx { GetOverlayOther(m[f], 8 * idx, Enc(v, 8), 8 * k, 8); }
  }

  /** The place of a page table: its root, its level and the page-number bits above it. */
  datatype Pos = Pos(root: nat, level: nat, pre: nat)

  /** What a page in use is used for: a table, page `vpn` of the user of `root`, the trapframe that
      `root` maps, a kernel stack, or anything else before pmm_init. */
  datatype Role = Tab(pos: Pos) | User(root: nat, vpn: nat) | Trapframe(root: nat) | Kstack | Boot

  function Child(p: Pos, idx: nat): Pos
    requires p.level > 0
  {
    Pos(p.root, p.level - 1, p.pre * NPTE + idx)
  }

  function Parent(p: Pos): Pos {
    Pos(p.root, p.level + 1, p.pre / NPTE)
  }

  /** `tbl` says where every page table is; `own` what every page in use is for. Trees share no
      page, and upper entries point to the tables below. */
  ghost predicate TreeOk(m: Mem, own: map<nat, Role>, tbl: map<Pos, nat>) {
    && (forall p {:trigger tbl[p]} :: p in tbl ==> TablePage(m, own, tbl, p))
    && (forall p, idx {:trigger EntryOk(m, own, tbl, p, idx)} ::
          p in tbl && 0 <= idx < NPTE ==> tbl[p] in m && EntryOk(m, own, tbl, p, idx))
  }

  ghost predicate TablePage(m: Mem, own: map<nat, Role>, tbl: map<Pos, nat>, p: Pos)
    requires p in tbl
  {
    && p.level <= 2 && tbl[p] in m && tbl[p] in own && own[tbl[p]] == Tab(p)
    && (if p.level == 2 then p.pre == 0 && tbl[p] == p.root else Parent(p) in tbl)
  }

  ghost predicate EntryOk(m: Mem, own: map<nat, Role>, tbl: map<Pos, nat>, p: Pos, idx: nat)
    requires p in tbl && tbl[p] in m && idx < NPTE
  {
    var pte := Pte(m, tbl[p], idx);
    p.level > 0 ==>
      if IsV(pte) then pte % 1024 == 1 && Child(p, idx) in tbl && PtePa(pte) == tbl[Child(p, idx)]
      else Child(p, idx) !in tbl
  }

  /** Every page is either on the free list, once, or in use. */
  ghost predicate FramesOk(m: Mem, own: map<nat, Role>, free: seq<nat>) {
    && (forall f {:trigger f in m} :: f in m ==> f % PGSIZE == 0 && 0 < f < MAXPA && (f in own || f in free))
    && (forall f {:trigger f in own} :: f in own ==> f in m && f !in free)
    && (forall i {:trigger free[i]} :: 0 <= i < |free| ==> free[i] in m)
    && (forall i, j {:trigger free[i], free[j]} :: 0 <= i < j < |free| ==> free[i] != free[j])
  }

  /** The free list, threaded through the first word of the free pages, is `free`. */
  ghost predicate ListOk(m: Mem, head: nat, free: seq<nat>) {
    && head == (if free == [] then 0 else free[0])
    && forall i {:trigger free[i]} :: 0 <= i < |free| ==>
         free[i] in m && Get(m[free[i]], 0, 8) == if i + 1 < |free| then free[i + 1] else 0
  }

  /** The page table of `root` as a partial map from page numbers to entries. */
  ghost function Trans(m: Mem, tbl: map<Pos, nat>, root: nat, v: nat): (r: Option<nat>) {
    var p := Pos(root, 0, v / NPTE);
    if p in tbl && tbl[p] in m && IsV(Pte(m, tbl[p], v % NPTE)) then Some(Pte(m, tbl[p], v % NPTE)) else None
  }

  /** The permission bits that a page number is mapped with; 0 if it is not mapped. */
  ghost function Perm(m: Mem, tbl: map<Pos, nat>, root: nat, v: nat): nat {
    var t := Trans(m, tbl, root, v);
    if t.Some? then t.value % 1024 else 0
  }

  /** Page `v` is mapped for the user to read, write and execute: V, R, W, X and U are set. */
  ghost predicate AllRights(m: Mem, tbl: map<Pos, nat>, root: nat, v: nat) {
    var t := Trans(m, tbl, root, v);
    t.Some? && IsU(t.value) && t.value % 1024 == 0x1F
  }

  /** A user entry points to the page of its own, any other to a page that is not handed out, as the
      trampoline, or to the trapframe of its address space. */
  ghost predicate MapOk(m: Mem, own: map<nat, Role>, root: nat, v: nat, pte: nat) {
    var pa := PtePa(pte);
    if IsU(pte) then pa in own && own[pa] == User(root, v) else pa !in m || (pa in own && own[pa] == Trapframe(root))
  }

  /** Nobody maps a page of another, a free page, a table or a kernel stack. */
  ghost predicate Private(m: Mem, own: map<nat, Role>, tbl: map<Pos, nat>) {
    forall r, v {:trigger Trans(m, tbl, r, v)} ::
      Trans(m, tbl, r, v).Some? ==> MapOk(m, own, r, v, Trans(m, tbl, r, v).value)
  }

  lemma PrivateKeep(m: Mem, own: map<nat, Role>, tbl: map<Pos, nat>, m': Mem, own': map<nat, Role>, tbl': map<Pos, nat>)
    requires Private(m, own, tbl) && m'.Keys == m.Keys
             && forall r, v {:trigger Trans(m', tbl', r, v)} :: Trans(m', tbl', r, v) == Trans(m, tbl, r, v)
    requires forall g {:trigger own'[g]} {:trigger g in own} :: g in own ==> g in own' && own'[g] == own[g]
    ensures Private(m', own', tbl')
  {
    hide Trans;
    forall r, v | Trans(m', tbl', r, v).Some? ensures MapOk(m', own', r, v, Trans(m', tbl', r, v).value) {
      assert MapOk(m, own, r, v, Trans(m, tbl, r, v).value);
    }
  }

  lemma PrivateSet(m: Mem, own: map<nat, Role>, tbl: map<Pos, nat>, m': Mem, own': map<nat, Role>, tbl': map<Pos, nat>,
    root: nat, va: nat, pa: nat, perm: nat)
    requires perm < 1024 && Private(m, own, tbl) && Mapped1(m, own, tbl, m', own', tbl', root, va, pa, perm)
    requires MapOk(m, own, root, Vpn(va), MakePte(pa, perm))
    ensures Private(m', own', tbl')
  {
    hide Trans, MakePte, Vpn;
    forall r, v | Trans(m', tbl', r, v).Some? ensures MapOk(m', own', r, v, Trans(m', tbl', r, v).value) {
      if r != root || v != Vpn(va) { assert MapOk(m, own, r, v, Trans(m, tbl, r, v).value); }
    }
  }

  /** The user byte at `va`. */
  ghost function UserAt(m: Mem, tbl: map<Pos, nat>, root: nat, va: nat): Option<byte> {
    var t := Trans(m, tbl, root, Vpn(va));
    if t.Some? && IsU(t.value) && PtePa(t.value) in m then Some(m[PtePa(t.value)][va % PGSIZE]) else None
  }

  /** The user bytes below `top`, and the user memory of an address space. */
  ghost function Seen(m: Mem, tbl: map<Pos, nat>, root: nat, top: nat): map<nat, byte> {
    map va: nat | va < top && UserAt(m, tbl, root, va).Some? :: UserAt(m, tbl, root, va).value
  }

  ghost function Flat(m: Mem, tbl: map<Pos, nat>, root: nat): map<nat, byte> {
    Seen(m, tbl, root, VASPACE)
  }

  /** From 2^39 on the same memory is seen again. */
  lemma SeenAgain(m: Mem, tbl: map<Pos, nat>, root: nat, va: nat, top: nat)
    requires va < top
    ensures va in Seen(m, tbl, root, top) <==> va % VASPACE in Flat(m, tbl, root)
    ensures va in Seen(m, tbl, root, top) ==> Seen(m, tbl, root, top)[va] == Flat(m, tbl, root)[va % VASPACE]
  {
    hide Trans, Vpn;
    Folded(va);
  }

  lemma Folded(va: nat)
    ensures Vpn(va % VASPACE) == Vpn(va) && va % VASPACE % PGSIZE == va % PGSIZE
  {
    var q, d := va / VASPACE, va % VASPACE;
    assert va == VASPACE * q + d && VASPACE == NVPN * PGSIZE;
    assert va / PGSIZE == NVPN * q + d / PGSIZE;
    FoldedPage(q, d / PGSIZE);
    assert va % PGSIZE == d % PGSIZE;
  }

  lemma FoldedPage(q: nat, k: nat)
    ensures (NVPN * q + k) % NVPN == k % NVPN
  {
  }

  /** Pages that are not tables do not matter to the trees. */
  lemma TreeFrame(m: Mem, m': Mem, own: map<nat, Role>, tbl: map<Pos, nat>)
    requires TreeOk(m, own, tbl) && m'.Keys == m.Keys && forall p :: p in tbl ==> tbl[p] in m && m'[tbl[p]] == m[tbl[p]]
    ensures TreeOk(m', own, tbl)
    ensures forall r, v :: Trans(m', tbl, r, v) == Trans(m, tbl, r, v)
  {
    forall p | p in tbl ensures TablePage(m', own, tbl, p) { assert TablePage(m, own, tbl, p); }
    forall p, idx | p in tbl && 0 <= idx < NPTE ensures EntryOk(m', own, tbl, p, idx) {
      assert EntryOk(m, own, tbl, p, idx);
    }
  }

  /** One more page in use. */
  lemma TreeOwn(m: Mem, own: map<nat, Role>, tbl: map<Pos, nat>, f: nat, role: Role)
    requires TreeOk(m, own, tbl) && f !in own
    ensures TreeOk(m, own[f := role], tbl)
  {
    var own' := own[f := role];
    forall p | p in tbl ensures TablePage(m, own', tbl, p) { assert TablePage(m, own, tbl, p); }
    forall p, idx | p in tbl && 0 <= idx < NPTE ensures tbl[p] in m && EntryOk(m, own', tbl, p, idx) {
      assert EntryOk(m, own, tbl, p, idx);
    }
  }

  /** Where a table is, and what is there. */
  lemma TableAt(m: Mem, own: map<nat, Role>, tbl: map<Pos, nat>, p: Pos)
    requires TreeOk(m, own, tbl) && p in tbl
    ensures TablePage(m, own, tbl, p) && forall q :: q in tbl && tbl[q] == tbl[p] ==> q == p
  {
    assert TablePage(m, own, tbl, p);
    forall q | q in tbl && tbl[q] == tbl[p] ensures q == p { assert TablePage(m, own, tbl, q); }
  }

  /** A leaf entry is set: exactly one page number translates differently. */
  lemma LeafSet(m: Mem, own: map<nat, Role>, tbl: map<Pos, nat>, p: Pos, idx: nat, v: nat)
    requires TreeOk(m, own, tbl) && p in tbl && p.level == 0 && idx < NPTE && v < U64 && IsV(v)
    ensures tbl[p] in m
    ensures var m' := WithPte(m, tbl[p], idx, v);
            && TreeOk(m', own, tbl)
            && forall r, w {:trigger Trans(m', tbl, r, w)} ::
                 Trans(m', tbl, r, w) == if r == p.root && w == p.pre * NPTE + idx then Some(v) else Trans(m, tbl, r, w)
  {
    hide Get;
    TableAt(m, own, tbl, p);
    var f := tbl[p];
    var m' := WithPte(m, f, idx, v);
    forall q, k | q in tbl && 0 <= k < NPTE
      ensures tbl[q] in m && Pte(m', tbl[q], k) == if q == p && k == idx then v else Pte(m, tbl[q], k)
    {
      assert TablePage(m, own, tbl, q);
      if q == p { PteWritten(m, f, idx, v, k); }
    }
    forall q | q in tbl ensures TablePage(m', own, tbl, q) { assert TablePage(m, own, tbl, q); }
    forall q, k | q in tbl && 0 <= k < NPTE ensures EntryOk(m', own, tbl, q, k) {
      assert EntryOk(m, own, tbl, q, k);
    }
    forall r: nat, w: nat
      ensures Trans(m', tbl, r, w) == if r == p.root && w == p.pre * NPTE + idx then Some(v) else Trans(m, tbl, r, w)
    {
      var q := Pos(r, 0, w / NPTE);
      if q in tbl {
        assert Pte(m', tbl[q], w % NPTE) == if q == p && w % NPTE == idx then v else Pte(m, tbl[q], w % NPTE);
      }
    }
  }

  lemma ZeroPte(m: Mem, f: nat, k: nat)
    requires f in m && m[f] == Zeros(PGSIZE) && k < NPTE
    ensures Pte(m, f, k) == 0
  {
    var s := m[f][8 * k..8 * k + 8];
    assert forall i :: 0 <= i < 8 ==> s[i] == 0;
    DecZeros(s);
  }

  lemma ChildOf(p: Pos, k: nat)
    requires p.level > 0 && k < NPTE
    ensures Parent(Child(p, k)) == p && Child(p, k).pre % NPTE == k
  {
  }

  /** walk_create links the zeroed page `f` in as a table: nothing translates differently. */
  lemma LinkTable(m: Mem, own: map<nat, Role>, tbl: map<Pos, nat>, p: Pos, idx: nat, f: nat)
    requires TreeOk(m, own, tbl) && p in tbl && 0 < p.level <= 2 && idx < NPTE && f in m && f % PGSIZE == 0 && f < MAXPA
    requires Child(p, idx) !in tbl && f in own && own[f] == Tab(Child(p, idx)) && m[f] == Zeros(PGSIZE)
    ensures tbl[p] in m
    ensures var m', tbl' := WithPte(m, tbl[p], idx, MakePte(f, 0)), tbl[Child(p, idx) := f];
            && TreeOk(m', own, tbl')
            && forall r, w {:trigger Trans(m', tbl', r, w)} :: Trans(m', tbl', r, w) == Trans(m, tbl, r, w)
  {
    hide Get;
    MakePteParts(f, 0);
    TableAt(m, own, tbl, p);
    var c, t := Child(p, idx), tbl[p];
    ChildOf(p, idx);
    var m', tbl' := WithPte(m, t, idx, MakePte(f, 0)), tbl[c := f];
    forall q, k | q in tbl' && 0 <= k < NPTE
      ensures tbl'[q] in m && Pte(m', tbl'[q], k) == if q == c then 0 else if q == p && k == idx then MakePte(f, 0)
                                                     else Pte(m, tbl[q], k)
    {
      if q == c {
        ZeroPte(m, f, k);
      } else {
        assert TablePage(m, own, tbl, q);
        if q == p { PteWritten(m, t, idx, MakePte(f, 0), k); }
      }
    }
    forall q | q in tbl' ensures TablePage(m', own, tbl', q) { if q != c { assert TablePage(m, own, tbl, q); } }
    forall q, k | q in tbl' && 0 <= k < NPTE ensures EntryOk(m', own, tbl', q, k) {
      if q == c {
        NoGrandchild(m, own, tbl, c, k);
      } else {
        assert EntryOk(m, own, tbl, q, k);
        if q.level > 0 { ChildOf(q, k); }
      }
    }
    forall r: nat, w: nat ensures Trans(m', tbl', r, w) == Trans(m, tbl, r, w) {
      var q := Pos(r, 0, w / NPTE);
      if q in tbl' { assert Pte(m', tbl'[q], w % NPTE) == if q == c then 0 else Pte(m, tbl[q], w % NPTE); }
    }
  }

  lemma NoGrandchild(m: Mem, own: map<nat, Role>, tbl: map<Pos, nat>, c: Pos, k: nat)
    requires TreeOk(m, own, tbl) && c !in tbl && k < NPTE && c.level <= 1
    ensures c.level > 0 ==> Child(c, k) !in tbl
  {
    if c.level > 0 {
      ChildOf(c, k);
      assert Child(c, k) in tbl ==> TablePage(m, own, tbl, Child(c, k));
    }
  }

  /** create_pagetable: a zeroed page becomes the root of an address space without mappings. */
  lemma NewRoot(m: Mem, own: map<nat, Role>, tbl: map<Pos, nat>, f: nat)
    requires TreeOk(m, own, tbl) && f in m && f in own && own[f] == Tab(Pos(f, 2, 0)) && m[f] == Zeros(PGSIZE)
    requires forall p :: p in tbl ==> tbl[p] != f
    ensures TreeOk(m, own, tbl[Pos(f, 2, 0) := f])
    ensures forall r, w {:trigger Trans(m, tbl[Pos(f, 2, 0) := f], r, w)} ::
              Trans(m, tbl[Pos(f, 2, 0) := f], r, w) == Trans(m, tbl, r, w)
    ensures (forall w :: Trans(m, tbl, f, w) == None)
            && forall va: nat {:trigger Missing(tbl[Pos(f, 2, 0) := f], f, va)} ::
                 Missing(tbl[Pos(f, 2, 0) := f], f, va) == 2
  {
    var c, tbl' := Pos(f, 2, 0), tbl[Pos(f, 2, 0) := f];
    assert c in tbl ==> TablePage(m, own, tbl, c);
    forall q | q in tbl' ensures TablePage(m, own, tbl', q) { if q != c { assert TablePage(m, own, tbl, q); } }
    forall q, k | q in tbl' && 0 <= k < NPTE ensures tbl'[q] in m && EntryOk(m, own, tbl', q, k) {
      if q == c {
        ZeroPte(m, f, k);
        ChildOf(c, k);
        assert Child(c, k) in tbl ==> TablePage(m, own, tbl, Child(c, k));
      } else {
        assert EntryOk(m, own, tbl, q, k);
        if q.level > 0 { ChildOf(q, k); }
      }
    }
    forall w: nat ensures Trans(m, tbl, f, w) == None { NoLeaf(m, own, tbl, f, w / NPTE); }
    forall va: nat ensures Missing(tbl', f, va) == 2 {
      var q := Way(f, va, 1);
      assert q in tbl ==> TablePage(m, own, tbl, q);
      assert Parent(q) in tbl ==> TablePage(m, own, tbl, Parent(q));
    }
  }

  /** Without a root there is no tree. */
  lemma NoLeaf(m: Mem, own: map<nat, Role>, tbl: map<Pos, nat>, r: nat, pre: nat)
    requires TreeOk(m, own, tbl) && Pos(r, 2, 0) !in tbl
    ensures Pos(r, 0, pre) !in tbl
  {
    var q := Pos(r, 0, pre);
    assert q in tbl ==> TablePage(m, own, tbl, q);
    assert Parent(q) in tbl ==> TablePage(m, own, tbl, Parent(q));
    assert Parent(Parent(q)) in tbl ==> TablePage(m, own, tbl, Parent(Parent(q)));
  }

  /** The page tables on the way to `va`. */
  function Way(root: nat, va: nat, level: nat): Pos
    requires level <= 2
  {
    Pos(root, level, Above(va, level))
  }

  /** How many tables walk_create has to make. */
  ghost function Missing(tbl: map<Pos, nat>, root: nat, va: nat): nat {
    if Way(root, va, 1) !in tbl then 2 else if Way(root, va, 0) !in tbl then 1 else 0
  }

  lemma WayDown(m: Mem, own: map<nat, Role>, tbl: map<Pos, nat>, root: nat, va: nat, level: nat)
    requires TreeOk(m, own, tbl) && 0 < level <= 2
    ensures Way(root, va, level - 1) == Child(Way(root, va, level), VpnMask(va, level))
    ensures Way(root, va, level - 1) !in tbl ==> Way(root, va, 0) !in tbl
  {
    assert Way(root, va, 0) in tbl ==> TablePage(m, own, tbl, Way(root, va, 0));
    assert Parent(Way(root, va, 0)) == Way(root, va, 1);
  }

  lemma WayEntry(m: Mem, own: map<nat, Role>, tbl: map<Pos, nat>, p: Pos, idx: nat)
    requires TreeOk(m, own, tbl) && p in tbl && idx < NPTE
    ensures tbl[p] in m && tbl[p] in own && EntryOk(m, own, tbl, p, idx)
  {
    assert TablePage(m, own, tbl, p);
    assert EntryOk(m, own, tbl, p, idx);
  }

  /** Allocating takes the first page of the list. */
  lemma Alloced(m: Mem, head: nat, own: map<nat, Role>, free: seq<nat>, role: Role)
    requires FramesOk(m, own, free) && ListOk(m, head, free) && free != []
    ensures free[0] in m && free[0] !in own && head == free[0]
    ensures FramesOk(m, own[free[0] := role], free[1..]) && ListOk(m, Get(m[free[0]], 0, 8), free[1..])
  {
    hide FramesOk, ListOk;
    ListTail(m, head, free);
    FramesTail(m, own, free, role);
  }

  lemma ListTail(m: Mem, head: nat, free: seq<nat>)
    requires ListOk(m, head, free) && free != []
    ensures free[0] in m && head == free[0] && ListOk(m, Get(m[free[0]], 0, 8), free[1..])
  {
    hide Get;
    var rest := free[1..];
    forall i | 0 <= i < |rest|
      ensures rest[i] in m && Get(m[rest[i]], 0, 8) == if i + 1 < |rest| then rest[i + 1] else 0
    {
      assert rest[i] == free[i + 1];
    }
    assert |free| > 1 ==> rest[0] == free[1];
  }

  lemma FramesTail(m: Mem, own: map<nat, Role>, free: seq<nat>, role: Role)
    requires FramesOk(m, own, free) && free != []
    ensures free[0] in m && free[0] !in own && FramesOk(m, own[free[0] := role], free[1..])
  {
    var f, rest, own' := free[0], free[1..], own[free[0] := role];
    assert free == [f] + rest && f in free;
    forall i | 0 <= i < |rest| ensures rest[i] in m && rest[i] != f { assert rest[i] == free[i + 1]; }
    forall i, j | 0 <= i < j < |rest|
      ensures rest[i] != rest[j]
    {
      assert rest[i] == free[i + 1] && rest[j] == free[j + 1];
    }
  }

  /** free_page puts the page at the front of the list. */
  lemma Freed(m: Mem, head: nat, own: map<nat, Role>, free: seq<nat>, pa: nat)
    requires FramesOk(m, own, free) && ListOk(m, head, free) && pa in own
    ensures pa in m
    ensures var m' := m[pa := Put(m[pa], 0, 8, head)];
            FramesOk(m', own - {pa}, [pa] + free) && ListOk(m', pa, [pa] + free)
  {
    hide FramesOk, ListOk, Put, Get;
    OwnIn(m, own, free);
    FramesFreed(m, own, free, pa, Put(m[pa], 0, 8, head));
    assert forall i :: 0 <= i < |free| ==> free[i] != pa;
    ListFreed(m, head, free, pa);
  }

  lemma FramesFreed(m: Mem, own: map<nat, Role>, free: seq<nat>, pa: nat, page: Page)
    requires FramesOk(m, own, free) && pa in own
    ensures pa in m && FramesOk(m[pa := page], own - {pa}, [pa] + free)
            && forall i :: 0 <= i < |free| ==> free[i] != pa && free[i] < MAXPA
  {
    var l := [pa] + free;
    forall i | 0 <= i < |free| ensures free[i] != pa && l[i + 1] == free[i] { assert free[i] in free; }
    forall g | g in m ensures g in own - {pa} || g in l {
      if g == pa { assert l[0] == pa; } else if g !in own { assert g in free; }
    }
  }

  lemma ListFreed(m: Mem, head: nat, free: seq<nat>, pa: nat)
    requires ListOk(m, head, free) && pa in m && forall i :: 0 <= i < |free| ==> free[i] != pa && free[i] < MAXPA
    ensures ListOk(m[pa := Put(m[pa], 0, 8, head)], pa, [pa] + free)
  {
    hide Get, Put;
    var m', l := m[pa := Put(m[pa], 0, 8, head)], [pa] + free;
    assert Pow256(8) == U64;
    GetPutSame(m[pa], 0, 8, head);
    forall i | 0 <= i < |l| ensures l[i] in m' && Get(m'[l[i]], 0, 8) == if i + 1 < |l| then l[i + 1] else 0 {
      if i > 0 { assert l[i] == free[i - 1] && free[i - 1] != pa; }
    }
  }

  /** A page in use may be overwritten without harm to the free list. */
  lemma UsedWrite(m: Mem, head: nat, own: map<nat, Role>, free: seq<nat>, f: nat, page: Page)
    requires FramesOk(m, own, free) && ListOk(m, head, free) && f in own
    ensures f in m && FramesOk(m[f := page], own, free) && ListOk(m[f := page], head, free)
  {
    hide Get;
  }

  /** Tables that the walk has still to make when it stands at `level`. */
  ghost function Left(tbl: map<Pos, nat>, root: nat, va: nat, level: nat): nat {
    if level == 2 then Missing(tbl, root, va) else if level == 1 && Way(root, va, 0) !in tbl then 1 else 0
  }

  /** Only page tables have been added: pages in use keep their use, pages that are no tables
      their contents, and every translation is as before. */
  ghost predicate Grown(m: Mem, own: map<nat, Role>, tbl: map<Pos, nat>, m': Mem, own': map<nat, Role>,
      tbl': map<Pos, nat>) {
    && m'.Keys == m.Keys
    && (forall g {:trigger own'[g]} {:trigger g in own} :: g in own ==> g in own' && own'[g] == own[g])
    && (forall p {:trigger tbl'[p]} {:trigger p in tbl} :: p in tbl ==> p in tbl' && tbl'[p] == tbl[p])
    && (forall g {:trigger m'[g]} {:trigger m[g]} {:trigger g in own} ::
          g in own && !own[g].Tab? ==> g in m && m'[g] == m[g])
    && (forall r, v {:trigger Trans(m', tbl', r, v)} :: Trans(m', tbl', r, v) == Trans(m, tbl, r, v))
  }

  lemma GrownSame(m: Mem, own: map<nat, Role>, tbl: map<Pos, nat>, free: seq<nat>)
    requires FramesOk(m, own, free)
    ensures Grown(m, own, tbl, m, own, tbl)
  {
  }

  lemma GrownTrans(m: Mem, own: map<nat, Role>, tbl: map<Pos, nat>, m1: Mem, own1: map<nat, Role>, tbl1: map<Pos, nat>,
    m2: Mem, own2: map<nat, Role>, tbl2: map<Pos, nat>)
    requires Grown(m, own, tbl, m1, own1, tbl1) && Grown(m1, own1, tbl1, m2, own2, tbl2)
    ensures Grown(m, own, tbl, m2, own2, tbl2)
  {
    hide Trans;
  }

  /** map_page's effect: one page number is mapped, besides tables that may have been added. */
  ghost predicate Mapped1(m: Mem, own: map<nat, Role>, tbl: map<Pos, nat>, m': Mem, own': map<nat, Role>,
      tbl': map<Pos, nat>, root: nat, va: nat, pa: nat, perm: nat)
    requires perm < 1024
  {
    && m'.Keys == m.Keys
    && (forall g {:trigger own'[g]} {:trigger g in own} :: g in own ==> g in own' && own'[g] == own[g])
    && (forall p {:trigger tbl'[p]} {:trigger p in tbl} :: p in tbl ==> p in tbl' && tbl'[p] == tbl[p])
    && (forall g {:trigger m'[g]} {:trigger m[g]} {:trigger g in own} ::
          g in own && !own[g].Tab? ==> g in m && m'[g] == m[g])
    && (forall r, v {:trigger Trans(m', tbl', r, v)} :: Trans(m', tbl', r, v) ==
          if r == root && v == Vpn(va) then Some(MakePte(pa, perm)) else Trans(m, tbl, r, v))
  }

  lemma MapStep(m: Mem, own: map<nat, Role>, tbl: map<Pos, nat>, m1: Mem, own1: map<nat, Role>, tbl1: map<Pos, nat>,
      m2: Mem, f: nat, root: nat, va: nat, pa: nat, perm: nat)
    requires Grown(m, own, tbl, m1, own1, tbl1) && perm < 1024 && f in own1 && own1[f].Tab?
    requires m2.Keys == m1.Keys && forall g :: g in m1 && g != f ==> m2[g] == m1[g]
    requires forall r, v {:trigger Trans(m2, tbl1, r, v)} :: Trans(m2, tbl1, r, v) ==
               if r == root && v == Vpn(va) then Some(MakePte(pa, perm)) else Trans(m1, tbl1, r, v)
    ensures Mapped1(m, own, tbl, m2, own1, tbl1, root, va, pa, perm)
  {
    forall g | g in own && !own[g].Tab? ensures g in m && g in m2 && m2[g] == m[g] {
      assert g in own1 && own1[g] == own[g];
      assert g in m && m1[g] == m[g];
    }
  }

  /** The number of pages that `sz` bytes touch. */
  function Pages(sz: nat): nat {
    (sz + PGSIZE - 1) / PGSIZE
  }

  lemma VpnOfPage(k: nat, sz: nat)
    requires PGSIZE * k < sz <= VASPACE
    ensures k < Pages(sz) && Vpn(PGSIZE * k) == k && PGSIZE * k % PGSIZE == 0
  {
  }

  const TRAMPOLINE := 0x40_0000_0000 - PGSIZE
  const TRAPFRAME := TRAMPOLINE - PGSIZE

  /** Nothing is mapped but the two kernel pages at the top. */
  ghost predicate OnlyTop(m: Mem, tbl: map<Pos, nat>, root: nat) {
    forall v {:trigger Trans(m, tbl, root, v)} :: Trans(m, tbl, root, v).Some? ==>
      (v == Vpn(TRAMPOLINE) || v == Vpn(TRAPFRAME)) && !IsU(Trans(m, tbl, root, v).value)
  }

  lemma GrownWidened(m: Mem, own: map<nat, Role>, tbl: map<Pos, nat>, m': Mem, own': map<nat, Role>,
      tbl': map<Pos, nat>, root: nat)
    requires Grown(m, own, tbl, m', own', tbl')
    ensures Widened(m, own, tbl, m', own', tbl', root)
  {
  }

  lemma MappedWidened(m: Mem, own: map<nat, Role>, tbl: map<Pos, nat>, m': Mem, own': map<nat, Role>,
      tbl': map<Pos, nat>, root: nat, va: nat, pa: nat, perm: nat)
    requires perm < 1024 && Mapped1(m, own, tbl, m', own', tbl', root, va, pa, perm)
    ensures Widened(m, own, tbl, m', own', tbl', root)
  {
  }

  /** The two kernel pages at the top of an address space. */
  ghost predicate TopIs(m: Mem, tbl: map<Pos, nat>, root: nat, trampoline: nat, tf: nat) {
    && Trans(m, tbl, root, Vpn(TRAMPOLINE)) == Some(MakePte(trampoline, PTE_R + PTE_X))
    && Trans(m, tbl, root, Vpn(TRAPFRAME)) == Some(MakePte(tf, PTE_R + PTE_W))
  }

  /** They share their page table. */
  lemma TopShares(m: Mem, own: map<nat, Role>, tbl: map<Pos, nat>, root: nat)
    requires TreeOk(m, own, tbl) && Way(root, TRAMPOLINE, 0) in tbl
    ensures Missing(tbl, root, TRAPFRAME) == 0 && Vpn(TRAMPOLINE) != Vpn(TRAPFRAME)
  {
    var p := Way(root, TRAPFRAME, 0);
    assert TRAMPOLINE / PGSIZE / NPTE == TRAPFRAME / PGSIZE / NPTE;
    VpnParts(TRAMPOLINE);
    VpnParts(TRAPFRAME);
    assert p == Way(root, TRAMPOLINE, 0) && TablePage(m, own, tbl, p);
    WayDown(m, own, tbl, root, TRAPFRAME, 1);
    ChildOf(Way(root, TRAPFRAME, 1), VpnMask(TRAPFRAME, 1));
  }

  /** The tables that pages `lo..k` can need beside the root: one for each 512 pages and one for each
      512 times 512 that they touch. */
  function Tables(lo: nat, k: nat): nat {
    if k <= lo then 0 else ((k - 1) / NPTE - lo / NPTE + 1) + ((k - 1) / (NPTE * NPTE) - lo / (NPTE * NPTE) + 1)
  }

  /** What the pages `lo..k` can cost, tables included. */
  function Cost(lo: nat, k: nat): int {
    k - lo + Tables(lo, k)
  }

  /** The tables on the way to page `k` that are not there. */
  ghost function Late(tbl: map<Pos, nat>, root: nat, k: nat): nat {
    (if Pos(root, 0, k / NPTE) in tbl then 0 else 1) + (if Pos(root, 1, k / (NPTE * NPTE)) in tbl then 0 else 1)
  }

  lemma MissingLate(m: Mem, own: map<nat, Role>, tbl: map<Pos, nat>, root: nat, k: nat)
    requires TreeOk(m, own, tbl) && k < NVPN
    ensures Missing(tbl, root, PGSIZE * k) == Late(tbl, root, k)
            && (Way(root, PGSIZE * k, 0) in tbl ==> Late(tbl, root, k) == 0)
  {
    VpnParts(PGSIZE * k);
    VpnOfPage(k, PGSIZE * k + 1);
    assert VpnShift(PGSIZE * k, 2) == k / NPTE / NPTE == k / (NPTE * NPTE);
    WayDown(m, own, tbl, root, PGSIZE * k, 2);
    WayDown(m, own, tbl, root, PGSIZE * k, 1);
    assert Way(root, PGSIZE * k, 0) in tbl ==> TablePage(m, own, tbl, Way(root, PGSIZE * k, 0));
    ChildOf(Way(root, PGSIZE * k, 1), VpnMask(PGSIZE * k, 1));
  }

  /** The pages `lo..k` have taken `used` pages, tables included, and what they may still cost is
      accounted for. */
  ghost predicate Spent(tbl: map<Pos, nat>, root: nat, lo: nat, k: nat, used: int) {
    lo <= k && used + (if k > lo then Late(tbl, root, k - 1) else 0) <= k - lo + Tables(lo, k)
  }

  lemma SpentNone(tbl: map<Pos, nat>, root: nat, lo: nat)
    ensures Spent(tbl, root, lo, lo, 0)
  {
  }

  /** One more page costs at most itself and the tables missing for it. */
  lemma SpendStep(tbl: map<Pos, nat>, root: nat, lo: nat, k: nat, used: int, hi: nat)
    requires Spent(tbl, root, lo, k, used) && k < hi
    ensures used + 1 + Late(tbl, root, k) <= k + 1 - lo + Tables(lo, k + 1)
    ensures k + 1 - lo + Tables(lo, k + 1) <= hi - lo + Tables(lo, hi)
  {
    var N := NPTE * NPTE;
    assert k / NPTE <= (hi - 1) / NPTE && k / N <= (hi - 1) / N;
    if k > lo {
      assert (k - 1) / NPTE <= k / NPTE <= (k - 1) / NPTE + 1 && (k - 1) / N <= k / N <= (k - 1) / N + 1;
      if k / NPTE == (k - 1) / NPTE { SameGroup(k); }
    }
  }

  lemma SameGroup(k: nat)
    requires k > 0 && k / NPTE == (k - 1) / NPTE
    ensures k / (NPTE * NPTE) == (k - 1) / (NPTE * NPTE)
  {
    assert k / (NPTE * NPTE) == k / NPTE / NPTE && (k - 1) / (NPTE * NPTE) == (k - 1) / NPTE / NPTE;
  }

  lemma SpentMore(m: Mem, own: map<nat, Role>, tbl: map<Pos, nat>, root: nat, lo: nat, k: nat, tbl0: map<Pos, nat>,
      used0: int, used: int)
    requires TreeOk(m, own, tbl) && lo <= k < NVPN && used0 + 1 + Late(tbl0, root, k) <= k + 1 - lo + Tables(lo, k + 1)
    requires (tbl == tbl0 && used == used0)
             || (Way(root, PGSIZE * k, 0) in tbl && used == used0 + 1 + Late(tbl0, root, k))
    ensures Spent(tbl, root, lo, k + 1, used)
  {
    hide TreeOk, Tables;
    MissingLate(m, own, tbl, root, k);
  }

  /** Pages below `k` are all mapped, as user pages. */
  ghost predicate Full(m: Mem, tbl: map<Pos, nat>, root: nat, k: nat) {
    forall v: nat {:trigger Trans(m, tbl, root, v)} ::
      v < k ==> Trans(m, tbl, root, v).Some? && IsU(Trans(m, tbl, root, v).value)
  }

  lemma FullLess(m: Mem, tbl: map<Pos, nat>, root: nat, k: nat, n: nat)
    requires Full(m, tbl, root, k) && n <= k
    ensures Full(m, tbl, root, n)
  {
  }

  lemma FullMore(m: Mem, tbl: map<Pos, nat>, m': Mem, tbl': map<Pos, nat>, root: nat, k: nat)
    requires Full(m, tbl, root, k) && ZeroPage(m', tbl', root, k)
    requires forall v: nat {:trigger Trans(m', tbl', root, v)} ::
               v != k ==> Trans(m', tbl', root, v) == Trans(m, tbl, root, v)
    ensures Full(m', tbl', root, k + 1)
  {
    hide Trans;
  }

  lemma FullSame(m: Mem, tbl: map<Pos, nat>, m': Mem, tbl': map<Pos, nat>, root: nat, k: nat)
    requires Full(m, tbl, root, k)
             && forall v: nat {:trigger Trans(m', tbl', root, v)} ::
                  v < k ==> Trans(m', tbl', root, v) == Trans(m, tbl, root, v)
    ensures Full(m', tbl', root, k)
  {
    hide Trans;
  }

  /** They are that many different pages. */
  lemma FullBound(m: Mem, own: map<nat, Role>, tbl: map<Pos, nat>, free: seq<nat>, root: nat, k: nat)
    requires FramesOk(m, own, free) && Private(m, own, tbl) && Full(m, tbl, root, k)
    ensures k <= |m.Keys|
  {
    hide Trans, Private, FramesOk;
    OwnIn(m, own, free);
    var l := seq(k, v requires 0 <= v < k => PtePa(Trans(m, tbl, root, v).value));
    forall i | 0 <= i < k ensures l[i] in m.Keys { UserOwned(m, own, tbl, root, i); }
    forall i, j | 0 <= i < j < k ensures l[i] != l[j] { FramesApart(m, own, tbl, root, i, root, j); }
    Card(l, m.Keys, k);
  }

  /** The next page of the heap lies below the trapframe. */
  lemma BelowTop(m: Mem, own: map<nat, Role>, tbl: map<Pos, nat>, free: seq<nat>, root: nat, k: nat, newsz: nat)
    requires FramesOk(m, own, free) && Private(m, own, tbl) && PGSIZE * k < newsz
    requires newsz <= TRAPFRAME || (Full(m, tbl, root, k) && |m.Keys| < Vpn(TRAPFRAME))
    ensures k < Vpn(TRAPFRAME) && k < Pages(newsz) && Vpn(PGSIZE * k) == k
  {
    hide FramesOk, Private, Full;
    if newsz > TRAPFRAME { FullBound(m, own, tbl, free, root, k); }
    VpnOfPage(k, PGSIZE * k + 1);
  }

  /** Growing does not wrap around. */
  lemma SmallHeap(m: Mem, own: map<nat, Role>, tbl: map<Pos, nat>, free: seq<nat>, root: nat, sz: nat, n: nat)
    requires FramesOk(m, own, free) && Private(m, own, tbl) && n < 0x8000_0000
    requires sz + n <= TRAPFRAME || (Full(m, tbl, root, Pages(sz)) && |m.Keys| < Vpn(TRAPFRAME))
    ensures sz + n < U64
  {
    hide FramesOk, Private, Full;
    if sz + n > TRAPFRAME { FullBound(m, own, tbl, free, root, Pages(sz)); }
  }

  /** Nothing has changed in the address space but user pages from `lo` on and below the trapframe. */
  ghost predicate HeapOnly(m: Mem, tbl: map<Pos, nat>, m': Mem, tbl': map<Pos, nat>, root: nat, lo: nat) {
    forall v: nat {:trigger Trans(m', tbl', root, v)} :: Trans(m', tbl', root, v) == Trans(m, tbl, root, v)
      || (lo <= v < Vpn(TRAPFRAME) && AllRights(m', tbl', root, v))
  }

  /** The pages `lo..hi` are mapped with all rights, and whatever else is mapped is so as before. */
  ghost predicate HeapGrown(m: Mem, tbl: map<Pos, nat>, m': Mem, tbl': map<Pos, nat>, root: nat, lo: nat, hi: nat) {
    forall v: nat {:trigger Trans(m', tbl', root, v)} ::
      if lo <= v < hi then AllRights(m', tbl', root, v) else Trans(m', tbl', root, v) == Trans(m, tbl, root, v)
  }

  lemma HeapIs(m: Mem, tbl: map<Pos, nat>, m': Mem, tbl': map<Pos, nat>, root: nat, lo: nat, k: nat)
    requires k == lo || k <= Vpn(TRAPFRAME)
    requires forall v: nat {:trigger ZeroPage(m', tbl', root, v)} :: lo <= v < k ==> ZeroPage(m', tbl', root, v)
    requires forall v: nat {:trigger Trans(m', tbl', root, v)} ::
               !(lo <= v < k) ==> Trans(m', tbl', root, v) == Trans(m, tbl, root, v)
    ensures HeapOnly(m, tbl, m', tbl', root, lo) && HeapGrown(m, tbl, m', tbl', root, lo, k)
  {
    hide Trans, Vpn;
    forall v: nat
      ensures if lo <= v < k then AllRights(m', tbl', root, v)
              else Trans(m', tbl', root, v) == Trans(m, tbl, root, v)
    {
      if lo <= v < k { assert ZeroPage(m', tbl', root, v); }
    }
  }

  /** Below `sz` the child has pages with all rights where the parent has pages; above it only the
      top two. */
  ghost predicate ChildMap(m: Mem, tbl: map<Pos, nat>, proot: nat, m': Mem, tbl': map<Pos, nat>, croot: nat, sz: nat) {
    forall v: nat {:trigger Trans(m', tbl', croot, v)} :: v != Vpn(TRAMPOLINE) && v != Vpn(TRAPFRAME) ==>
      if v < Pages(sz) && Trans(m, tbl, proot, v).Some? then AllRights(m', tbl', croot, v)
      else Trans(m', tbl', croot, v) == None
  }

  lemma ForkMapped(m0: Mem, o0: map<nat, Role>, t0: map<Pos, nat>, m1: Mem, o1: map<nat, Role>, t1: map<Pos, nat>,
    m2: Mem, t2: map<Pos, nat>, proot: nat, croot: nat, sz: nat, trampoline: nat, ctf: nat)
    requires Widened(m0, o0, t0, m1, o1, t1, croot) && OnlyTop(m1, t1, croot) && TopIs(m1, t1, croot, trampoline, ctf)
             && proot != croot && sz <= TRAPFRAME
    requires forall v: nat {:trigger PageCopied(m1, t1, proot, m2, t2, croot, v)} ::
               v < Pages(sz) ==> PageCopied(m1, t1, proot, m2, t2, croot, v)
    requires forall v: nat {:trigger Trans(m2, t2, croot, v)} ::
               v >= Pages(sz) ==> Trans(m2, t2, croot, v) == Trans(m1, t1, croot, v)
    ensures ChildMap(m0, t0, proot, m2, t2, croot, sz) && TopIs(m2, t2, croot, trampoline, ctf)
  {
    hide Trans, Vpn, Widened, Pages;
    forall v: nat | v != Vpn(TRAMPOLINE) && v != Vpn(TRAPFRAME)
      ensures if v < Pages(sz) && Trans(m0, t0, proot, v).Some? then AllRights(m2, t2, croot, v)
              else Trans(m2, t2, croot, v) == None
    {
      WidenedAt(m0, o0, t0, m1, o1, t1, croot, proot, v);
      if v < Pages(sz) { assert PageCopied(m1, t1, proot, m2, t2, croot, v); }
    }
    TopVpns(sz, Vpn(TRAMPOLINE));
    TopVpns(sz, Vpn(TRAPFRAME));
  }

  lemma SameMaps(m0: Mem, t0: map<Pos, nat>, proot: nat, m: Mem, m': Mem, tbl: map<Pos, nat>, croot: nat, sz: nat,
      trampoline: nat, ctf: nat)
    requires ChildMap(m0, t0, proot, m, tbl, croot, sz) && TopIs(m, tbl, croot, trampoline, ctf)
             && forall r, v :: Trans(m', tbl, r, v) == Trans(m, tbl, r, v)
    ensures ChildMap(m0, t0, proot, m', tbl, croot, sz) && TopIs(m', tbl, croot, trampoline, ctf)
  {
    hide Vpn, Pages;
    forall v: nat | v != Vpn(TRAMPOLINE) && v != Vpn(TRAPFRAME)
      ensures if v < Pages(sz) && Trans(m0, t0, proot, v).Some? then AllRights(m', tbl, croot, v)
              else Trans(m', tbl, croot, v) == None
    {
      assert Trans(m', tbl, croot, v) == Trans(m, tbl, croot, v);
    }
  }

  class Memory {
    var mem: Mem
    var freelist: nat
    ghost var free: seq<nat>
    ghost var own: map<nat, Role>
    ghost var tbl: map<Pos, nat>

    /** Every page is free or in use, and the trees are trees. */
    ghost predicate Sound()
      reads this
    {
      FramesOk(mem, own, free) && ListOk(mem, freelist, free) && TreeOk(mem, own, tbl)
    }

    /** And what they map is private. */
    ghost predicate Valid()
      reads this
    {
      Sound() && Private(mem, own, tbl)
    }

    ghost predicate IsRoot(root: nat)
      reads this`tbl
    {
      Pos(root, 2, 0) in tbl
    }

    /** free_page, of a kernel stack, or of any page before the first page table. */
    method FreePage(pa: nat)
      requires Valid() && pa in own && (own[pa] == Kstack || own[pa] == Boot)
      modifies this`mem, this`freelist, this`free, this`own
      ensures Valid() && free == [pa] + old(free) && own == old(own) - {pa} && mem.Keys == old(mem).Keys
      ensures forall r, v :: Trans(mem, tbl, r, v) == Trans(old(mem), tbl, r, v)
      ensures forall f :: f in mem && f != pa ==> mem[f] == old(mem)[f]
    {
      hide FramesOk, ListOk, TreeOk, Get, Put, Private;
      Freed(mem, freelist, own, free, pa);
      TreeDrop(mem, mem[pa := Put(mem[pa], 0, 8, freelist)], own, tbl, pa);
      mem := mem[pa := Put(mem[pa], 0, 8, freelist)];   // r->next = freelist
      freelist := pa;
      free, own := [pa] + free, own - {pa};
    }

    /** alloc_page; 0 when no page is left. The page keeps its old contents. */
    method AllocPage(ghost role: Role) returns (pa: nat)
      requires Sound()
      modifies this`freelist, this`free, this`own
      ensures Sound() && (old(Valid()) ==> Valid())
      ensures pa == 0 <==> old(free) == []
      ensures pa == 0 ==> free == old(free) && own == old(own) && freelist == old(freelist)
      ensures pa != 0 ==> pa in mem && pa !in old(own) && pa == old(free)[0] && free == old(free)[1..]
                          && own == old(own)[pa := role]
    {
      hide FramesOk, ListOk, TreeOk, Get, Private, Trans;
      NullFree(mem, freelist, own, free);
      if freelist == 0 { return 0; }
      Alloced(mem, freelist, own, free, role);
      TreeOwn(mem, own, tbl, free[0], role);
      pa := freelist;
      freelist := Get(mem[pa], 0, 8);
      ghost var o0 := own;
      free, own := free[1..], own[pa := role];
      if Private(mem, o0, tbl) { PrivateKeep(mem, o0, tbl, mem, own, tbl); }
    }

    /** The zeroing loops: the page in use at `pa`, which is no table yet, becomes all zero. */
    method ClearPage(pa: nat)
      requires Sound() && pa in own && pa in mem && forall p :: p in tbl ==> tbl[p] != pa
      modifies this`mem
      ensures Sound() && (old(Valid()) ==> Valid()) && mem == old(mem)[pa := Zeros(PGSIZE)]
      ensures forall r, v :: Trans(mem, tbl, r, v) == Trans(old(mem), tbl, r, v)
    {
      hide FramesOk, ListOk, TreeOk, Private, Trans;
      ghost var m0 := mem;
      var i := 0;
      var page: Page := mem[pa];
      while i < PGSIZE
        invariant 0 <= i <= PGSIZE && |page| == PGSIZE && forall k :: 0 <= k < i ==> page[k] == 0
      {
        page := page[i := 0];
        i := i + 1;
      }
      assert page == Zeros(PGSIZE);
      PageWrite(mem, freelist, own, free, tbl, pa, page);
      mem := mem[pa := page];
      if Private(m0, own, tbl) { PrivateKeep(m0, own, tbl, mem, own, tbl); }
    }

    /** walk_lookup: the leaf entry of `va`, if the tables on the way are there. */
    method WalkLookup(root: nat, va: nat) returns (found: bool, f: nat, idx: nat)
      requires Sound() && IsRoot(root)
      ensures found <==> Way(root, va, 0) in tbl
      ensures found ==> f == tbl[Way(root, va, 0)] && idx == VpnMask(va, 0) && f in mem
      ensures Trans(mem, tbl, root, Vpn(va)) == if found && IsV(Pte(mem, f, idx)) then Some(Pte(mem, f, idx)) else None
    {
      hide TreeOk, FramesOk, ListOk, Get, Above;
      VpnParts(va);
      var pt, level := root, 2;
      RootWay(mem, own, tbl, root, va);
      while level > 0
        invariant 0 <= level <= 2 && Way(root, va, level) in tbl && tbl[Way(root, va, level)] == pt
      {
        var i := VpnMask(va, level);
        WayDown(mem, own, tbl, root, va, level);
        WayEntry(mem, own, tbl, Way(root, va, level), i);
        if !IsV(Pte(mem, pt, i)) { return false, 0, 0; }
        pt := PtePa(Pte(mem, pt, i));
        level := level - 1;
      }
      WayEntry(mem, own, tbl, Way(root, va, 0), 0);
      return true, pt, VpnMask(va, 0);
    }

    /** One missing table of walk_create: a zeroed page, linked into the table `pt`. Without a
        free page the code writes through a null pointer: `ok` is false. */
    method AddTable(root: nat, va: nat, level: nat, pt: nat) returns (ok: bool, f: nat)
      requires Sound() && 0 < level <= 2 && Way(root, va, level) in tbl && tbl[Way(root, va, level)] == pt
      requires Way(root, va, level - 1) !in tbl
      modifies this
      ensures ok <==> old(free) != []
      ensures ok ==> && Sound() && tbl == old(tbl)[Way(root, va, level - 1) := f] && free == old(free)[1..]
                     && Grown(old(mem), old(own), old(tbl), mem, own, tbl)
    {
      hide TreeOk, FramesOk, ListOk, Private, Get, Put, Above, Trans, MakePte, VpnShift;
      var idx := VpnMask(va, level);
      WayDown(mem, own, tbl, root, va, level);
      OwnIn(mem, own, free);
      TableAt(mem, own, tbl, Way(root, va, level));
      TablesOwned(mem, own, tbl);
      f := AllocPage(Tab(Way(root, va, level - 1)));
      if f == 0 { return false, 0; }
      ClearPage(f);
      ghost var m1 := mem;
      FrameRange(mem, own, free, f);
      LinkTable(mem, own, tbl, Way(root, va, level), idx, f);
      MakePteParts(f, 0);
      UsedWrite(mem, freelist, own, free, pt, Put(mem[pt], 8 * idx, 8, MakePte(f, 0)));
      mem := WithPte(mem, pt, idx, MakePte(f, 0));
      tbl := tbl[Way(root, va, level - 1) := f];
      return true, f;
    }

    /** walk_create: the leaf entry of `va`, with the tables on the way made as needed. No
        translation changes. `ok` is false when it runs out of pages. */
    method WalkCreate(root: nat, va: nat) returns (ok: bool, f: nat, idx: nat)
      requires Sound() && IsRoot(root)
      modifies this
      ensures ok <==> Missing(old(tbl), root, va) <= |old(free)|
      ensures ok ==> && Sound() && Way(root, va, 0) in tbl && f == tbl[Way(root, va, 0)] && idx == VpnMask(va, 0)
                     && Grown(old(mem), old(own), old(tbl), mem, own, tbl)
                     && |free| == |old(free)| - Missing(old(tbl), root, va)
    {
      hide TreeOk, FramesOk, ListOk, Get, Above, Trans, Grown;
      var pt, level := root, 2;
      RootWay(mem, own, tbl, root, va);
      GrownSame(mem, own, tbl, free);
      ghost var need := Missing(tbl, root, va);
      WayDown(mem, own, tbl, root, va, 2);
      WayDown(mem, own, tbl, root, va, 1);
      while level > 0
        invariant 0 <= level <= 2 && Sound() && Way(root, va, level) in tbl && tbl[Way(root, va, level)] == pt
        invariant Grown(old(mem), old(own), old(tbl), mem, own, tbl)
        invariant |free| == |old(free)| - (need - Left(tbl, root, va, level))
      {
        var i := VpnMask(va, level);
        WayDown(mem, own, tbl, root, va, level);
        WayEntry(mem, own, tbl, Way(root, va, level), i);
        if IsV(Pte(mem, pt, i)) {
          pt := PtePa(Pte(mem, pt, i));
        } else {
          ghost var m1, o1, t1 := mem, own, tbl;
          var newpt;
          ok, newpt := AddTable(root, va, level, pt);
          if !ok { return false, 0, 0; }
          GrownTrans(old(mem), old(own), old(tbl), m1, o1, t1, mem, own, tbl);
          pt := newpt;
        }
        level := level - 1;
      }
      return true, pt, VpnMask(va, 0);
    }

    /** create_pagetable. */
    method CreatePagetable() returns (ok: bool, root: nat)
      requires Sound()
      modifies this
      ensures ok <==> old(free) != []
      ensures ok ==> && Sound() && (old(Valid()) ==> Valid()) && IsRoot(root) && free == old(free)[1..]
                     && root !in old(own)
                     && Grown(old(mem), old(own), old(tbl), mem, own, tbl)
                     && (forall v :: Trans(mem, tbl, root, v) == None)
                     && forall va: nat {:trigger Missing(tbl, root, va)} :: Missing(tbl, root, va) == 2
    {
      hide TreeOk, FramesOk, ListOk, Get, Trans, Private;
      OwnIn(mem, own, free);
      TablesOwned(mem, own, tbl);
      ghost var m0, o0, t0 := mem, own, tbl;
      var pa := AllocPage(Tab(Pos(if free == [] then 0 else free[0], 2, 0)));
      if pa == 0 { return false, 0; }
      RootOwned(mem, own, tbl, pa);
      ClearPage(pa);
      FrameRange(mem, own, free, pa);
      NewRoot(mem, own, tbl, pa);
      tbl := tbl[Pos(pa, 2, 0) := pa];
      if Private(m0, o0, t0) { PrivateKeep(m0, o0, t0, mem, own, tbl); }
      return true, pa;
    }

    /** map_page: exactly the page of `va` translates differently afterwards, whatever it is mapped
        to. What is mapped stays private if it was and the page may be mapped there. */
    method MapPage(root: nat, va: nat, pa: nat, perm: nat) returns (ok: bool)
      requires Sound() && IsRoot(root) && perm < 1024 && pa % PGSIZE == 0 && pa < MAXPA
      modifies this
      ensures ok <==> Missing(old(tbl), root, va) <= |old(free)|
      ensures ok ==> && Sound() && Mapped1(old(mem), old(own), old(tbl), mem, own, tbl, root, va, pa, perm)
                     && |free| == |old(free)| - Missing(old(tbl), root, va) && Way(root, va, 0) in tbl
      ensures ok && old(Valid()) && MapOk(old(mem), old(own), root, Vpn(va), MakePte(pa, perm)) ==> Valid()
    {
      hide TreeOk, FramesOk, ListOk, Get, Put, Trans, Above, Private, MapOk;
      var f, idx;
      ok, f, idx := WalkCreate(root, va);
      if !ok { return; }
      VpnParts(va);
      MakePteParts(pa, perm);
      LeafSet(mem, own, tbl, Way(root, va, 0), idx, MakePte(pa, perm));
      TableAt(mem, own, tbl, Way(root, va, 0));
      MapStep(old(mem), old(own), old(tbl), mem, own, tbl, WithPte(mem, f, idx, MakePte(pa, perm)), f, root, va, pa,
              perm);
      UsedWrite(mem, freelist, own, free, f, Put(mem[f], 8 * idx, 8, MakePte(pa, perm)));
      mem := WithPte(mem, f, idx, MakePte(pa, perm));
      if old(Private(mem, own, tbl)) && MapOk(old(mem), old(own), root, Vpn(va), MakePte(pa, perm)) {
        PrivateSet(old(mem), old(own), old(tbl), mem, own, tbl, root, va, pa, perm);
      }
    }

    /** The check that opens each round of the copy loops: the page of `va`, if a user may access it. */
    method UserPage(root: nat, va: nat) returns (ok: bool, pa: nat)
      requires Valid() && IsRoot(root)
      ensures ok <==> UserAt(mem, tbl, root, va).Some?
      ensures ok ==> pa in mem && pa in own && own[pa] == User(root, Vpn(va))
      ensures ok ==> Trans(mem, tbl, root, Vpn(va)).Some? && IsU(Trans(mem, tbl, root, Vpn(va)).value)
                     && PtePa(Trans(mem, tbl, root, Vpn(va)).value) == pa
    {
      hide TreeOk, FramesOk, ListOk, Get, Above;
      SameVpn(va, RoundDown(va));
      UserOwned(mem, own, tbl, root, Vpn(va));
      OwnIn(mem, own, free);
      var found, f, idx := WalkLookup(root, RoundDown(va));
      if !found || !IsV(Pte(mem, f, idx)) || !IsU(Pte(mem, f, idx)) { return false, 0; }
      return true, PtePa(Pte(mem, f, idx));
    }

    /** copyin: the user's bytes, or -1 when one of them is not accessible. */
    method Copyin(root: nat, srcva: nat, len: nat) returns (ok: bool, dst: seq<byte>)
      requires Valid() && IsRoot(root)
      ensures Fetch(Seen(mem, tbl, root, srcva + len), srcva, len) == if ok then Some(dst) else None
    {
      hide TreeOk, FramesOk, ListOk, Private, Get, UserAt, Fetch, Seen, Trans;
      ghost var u := Seen(mem, tbl, root, srcva + len);
      var left, va := len, srcva;
      dst := [];
      FetchNone(u, srcva);
      while left > 0
        invariant 0 <= left && left + |dst| == len && va == srcva + |dst| && Fetch(u, srcva, |dst|) == Some(dst)
      {
        var va0 := RoundDown(va);
        var pa0;
        ok, pa0 := UserPage(root, va);
        SeenAt(mem, tbl, root, va, srcva + len);
        if !ok {
          FetchMiss(u, srcva, len, va);
          return false, dst;
        }
        var n := PGSIZE - (va - va0);
        if n > left { n := left; }
        PageFetch(mem, tbl, root, va, n, srcva + len);
        FetchJoin(u, srcva, |dst|, n);
        dst := dst + mem[pa0][va - va0..va - va0 + n];
        left, va := left - n, va + n;
      }
      return true, dst;
    }

    /** The inner loop of copyout: bytes for one page. */
    method StorePart(root: nat, ghost a: nat, pa: nat, off: nat, part: seq<byte>)
      requires Valid() && pa in mem && pa in own && own[pa] == User(root, Vpn(a)) && a < VASPACE && off == a % PGSIZE
               && off + |part| <= PGSIZE
      requires UserAt(mem, tbl, root, a).Some? && PtePa(Trans(mem, tbl, root, Vpn(a)).value) == pa
      modifies this`mem
      ensures Valid() && Mapped(Flat(old(mem), tbl, root), a, |part|) && a + |part| <= VASPACE
      ensures Flat(mem, tbl, root) == Stored(Flat(old(mem), tbl, root), a, part)
              && Elsewhere(old(mem), mem, own, tbl, root)
    {
      hide TreeOk, FramesOk, ListOk, Private, Get, UserAt, Flat, Trans, Stored, Mapped, Vpn;
      InLastPage(a, |part|);
      PageFetch(mem, tbl, root, a, |part|, VASPACE);
      FlatIs(mem, tbl, root);
      FetchMapped(Flat(mem, tbl, root), a, |part|);
      PageStore(mem, own, tbl, root, a, pa, part);
      NoTable(mem, own, tbl, pa);
      PageWrite(mem, freelist, own, free, tbl, pa, Overlay(mem[pa], off, part));
      mem := mem[pa := Overlay(mem[pa], off, part)];
      PrivateKeep(old(mem), own, tbl, mem, own, tbl);
    }

    /** copyout: the bytes are stored up to the first inaccessible one. No other address space
        and no page of the kernel changes. A range that goes on at address 0 stops at the last byte
        of the address space, where nothing is for users. */
    method Copyout(root: nat, dstva: nat, src: seq<byte>) returns (ok: bool)
      requires Valid() && IsRoot(root)
               && (dstva % VASPACE + |src| <= VASPACE || UserAt(mem, tbl, root, VASPACE - 1).None?)
      modifies this`mem
      ensures Valid() && ok == Mapped(Flat(old(mem), tbl, root), dstva % VASPACE, |src|)
      ensures Flat(mem, tbl, root) == Stored(Flat(old(mem), tbl, root), dstva % VASPACE, src)
      ensures Elsewhere(old(mem), mem, own, tbl, root)
    {
      hide TreeOk, FramesOk, ListOk, Private, Get, UserAt, Flat, Trans, Stored, Mapped, Vpn;
      ghost var m0, u0, d := mem, Flat(mem, tbl, root), dstva % VASPACE;
      var done, va := 0, dstva;
      MappedZero(u0, d);
      StoredZero(u0, d);
      assert src[..0] == [];
      while done < |src|
        invariant 0 <= done <= |src| && va == dstva + done && Valid() && d + done <= VASPACE
        invariant Mapped(u0, d, done) && Flat(mem, tbl, root) == Stored(u0, d, src[..done])
        invariant Elsewhere(m0, mem, own, tbl, root)
      {
        NotLast(m0, tbl, root, d, done, |src|);
        var va0 := RoundDown(va);
        var pa0;
        ok, pa0 := UserPage(root, va);
        ghost var a := d + done;
        FoldedAt(mem, tbl, root, va, dstva, done);
        FlatAt(mem, tbl, root, a);
        StoredKeys(u0, d, src[..done]);
        if !ok {
          StoredStop(u0, d, src, done);
          return false;
        }
        var n := PGSIZE - (va - va0);
        if n > |src| - done { n := |src| - done; }
        SameVpn(va, va);
        StorePart(root, a, pa0, va - va0, src[done..done + n]);
        StoredStep(u0, d, src, done, n);
        done, va := done + n, va + n;
      }
      assert src[..done] == src;
      return true;
    }

    /** copyinstr: the string at `srcva` with its NUL, or -1 when there is none within reach. */
    method Copyinstr(root: nat, srcva: nat, max: nat) returns (ok: bool, dst: seq<byte>)
      requires Valid() && IsRoot(root)
      ensures ok <==> Str(Seen(mem, tbl, root, srcva + max), srcva, max).Some?
      ensures ok ==> dst == Str(Seen(mem, tbl, root, srcva + max), srcva, max).value + [0]
    {
      hide TreeOk, FramesOk, ListOk, Private, Get, UserAt, Fetch, Seen, Trans, Str;
      ghost var u := Seen(mem, tbl, root, srcva + max);
      var left, va := max, srcva;
      dst := [];
      PrependNone(Str(u, srcva, max));
      while left > 0
        invariant 0 <= left && left + |dst| == max && va == srcva + |dst|
        invariant Str(u, srcva, max) == Prepend(dst, Str(u, va, left))
      {
        var va0 := RoundDown(va);
        var pa0;
        ok, pa0 := UserPage(root, va);
        SeenAt(mem, tbl, root, va, srcva + max);
        StrStep(u, va, left);
        if !ok { return false, dst; }
        var n := PGSIZE - (va - va0);
        if n > left { n := left; }
        PageFetch(mem, tbl, root, va, n, srcva + max);
        ghost var page, start, left0 := mem[pa0][va - va0..va - va0 + n], va, left;
        var p := va - va0;
        while n > 0
          invariant 0 <= n <= left && left + |dst| == max && va == srcva + |dst| && p == va - va0 && p + n <= PGSIZE
          invariant va - start + n == |page| && start <= va && Fetch(u, start, |page|) == Some(page)
                    && page == mem[pa0][start - va0..start - va0 + |page|]
          invariant Str(u, srcva, max) == Prepend(dst, Str(u, va, left))
          invariant left == left0 - (|page| - n)
        {
          FetchByte(u, start, page, va - start);
          assert va in u && u[va] == mem[pa0][p];
          StrStep(u, va, left);
          if mem[pa0][p] == 0 {
            dst := dst + [0];
            return true, dst;
          }
          PrependMore(dst, mem[pa0][p], Str(u, va + 1, left - 1));
          dst := dst + [mem[pa0][p]];
          n, left, p, va := n - 1, left - 1, p + 1, va + 1;
        }
      }
      StrStep(u, va, 0);
      return false, dst;
    }

    /** A page for `role` with the contents of the page `src`; 0 when no page is left. */
    method DupPage(src: nat, ghost role: Role) returns (pa: nat)
      requires Valid() && src in mem && src in own && !role.Tab?
      modifies this`mem, this`freelist, this`free, this`own
      ensures Valid() && (pa == 0 <==> old(free) == []) && (pa == 0 ==> mem == old(mem) && own == old(own))
      ensures pa != 0 ==> && pa in old(mem) && pa in mem && pa !in old(own) && pa % PGSIZE == 0 && pa < MAXPA
                          && own == old(own)[pa := role] && mem == old(mem)[pa := old(mem)[src]]
                          && |free| == |old(free)| - 1
      ensures forall r, v :: Trans(mem, tbl, r, v) == Trans(old(mem), tbl, r, v)
    {
      hide TreeOk, FramesOk, ListOk, Private, Get, Trans;
      pa := AllocPage(role);
      if pa == 0 { return; }
      ghost var m1 := mem;
      NoTable(mem, own, tbl, pa);
      FrameRange(mem, own, free, pa);
      var page, i: nat := mem[pa], 0;
      while i < PGSIZE
        invariant 0 <= i <= PGSIZE && |page| == PGSIZE && forall k :: 0 <= k < i ==> page[k] == mem[src][k]
      {
        page := page[i := mem[src][i]];
        i := i + 1;
      }
      assert page == mem[src];
      PageWrite(mem, freelist, own, free, tbl, pa, page);
      mem := mem[pa := page];
      PrivateKeep(m1, own, tbl, mem, own, tbl);
    }

    /** One page of fork's copy loop. It needs a page, and tables for it, if the parent has one there:
        `ok` is false when walk_create runs out of pages; `r` when alloc_page does. */
    method CopyPage(proot: nat, croot: nat, va: nat) returns (ok: bool, r: bool)
      requires Valid() && IsRoot(proot) && IsRoot(croot) && proot != croot && va % PGSIZE == 0 && va < VASPACE
      requires UserOnly(mem, tbl, proot, Vpn(va)) && Trans(mem, tbl, croot, Vpn(va)) == None
      modifies this
      ensures ok ==> Valid() && IsRoot(proot) && IsRoot(croot)
                     && Widened(old(mem), old(own), old(tbl), mem, own, tbl, croot)
      ensures ok ==> forall v: nat {:trigger Trans(mem, tbl, croot, v)} ::
                       v != Vpn(va) ==> Trans(mem, tbl, croot, v) == Trans(old(mem), old(tbl), croot, v)
      ensures ok && r ==> PageCopied(old(mem), old(tbl), proot, mem, tbl, croot, Vpn(va))
      ensures ok && !r ==> Trans(mem, tbl, croot, Vpn(va)) == None
      ensures ok && !r <==> Trans(old(mem), old(tbl), proot, Vpn(va)).Some? && old(free) == []
      ensures ok && r <==> Trans(old(mem), old(tbl), proot, Vpn(va)).None?
                           || 1 + Missing(old(tbl), croot, va) <= |old(free)|
      ensures ok && r ==> if Trans(old(mem), old(tbl), proot, Vpn(va)).None? then free == old(free) && tbl == old(tbl)
                          else |free| == |old(free)| - 1 - Missing(old(tbl), croot, va) && Way(croot, va, 0) in tbl
    {
      hide TreeOk, FramesOk, ListOk, Private, Get, Trans, Missing;
      ghost var m0, o0, t0 := mem, own, tbl;
      WidenedSame(mem, own, tbl, free, croot);
      UserOwned(mem, own, tbl, proot, Vpn(va));
      OwnIn(mem, own, free);
      var found, f, idx := WalkLookup(proot, va);
      if !found || !IsV(Pte(mem, f, idx)) { return true, true; }
      var pa := DupPage(PtePa(Pte(mem, f, idx)), User(croot, Vpn(va)));
      if pa == 0 { return true, false; }
      ghost var m1, o1, t1 := mem, own, tbl;
      DupWidened(m0, o0, t0, m1, o1, pa, croot);
      MakePteParts(pa, PTE_R + PTE_W + PTE_X + PTE_U);
      ok := MapPage(croot, va, pa, PTE_R + PTE_W + PTE_X + PTE_U);
      if ok {
        MappedWidened(m1, o1, t1, mem, own, tbl, croot, va, pa, PTE_R + PTE_W + PTE_X + PTE_U);
        WidenedTrans(m0, o0, t0, m1, o1, t1, mem, own, tbl, croot);
      }
      return ok, true;
    }

    /** fork's copy loop over the pages below `sz`. A page for each of them and the tables that they
        can need are enough. */
    method CopyPages(proot: nat, croot: nat, sz: nat) returns (ok: bool, r: bool)
      requires Valid() && IsRoot(proot) && IsRoot(croot) && proot != croot && sz <= VASPACE
      requires forall v: nat :: v < Pages(sz) ==> UserOnly(mem, tbl, proot, v) && Trans(mem, tbl, croot, v) == None
      modifies this
      ensures ok ==> Valid() && IsRoot(proot) && IsRoot(croot)
                     && Widened(old(mem), old(own), old(tbl), mem, own, tbl, croot)
      ensures ok ==> forall v: nat {:trigger Trans(mem, tbl, croot, v)} ::
                       v >= Pages(sz) ==> Trans(mem, tbl, croot, v) == Trans(old(mem), old(tbl), croot, v)
      ensures ok && r ==> forall v: nat {:trigger PageCopied(old(mem), old(tbl), proot, mem, tbl, croot, v)} ::
                            v < Pages(sz) ==>
                            PageCopied(old(mem), old(tbl), proot, mem, tbl, croot, v)
      ensures |old(free)| >= Pages(sz) + Tables(0, Pages(sz)) ==> ok && r
    {
      hide TreeOk, FramesOk, ListOk, Private, Get, Trans, PageCopied, Widened, Tables, Late;
      ghost var m0, o0, t0, free0 := mem, own, tbl, |free|;
      WidenedSame(mem, own, tbl, free, croot);
      var va, k: nat := 0, 0;
      SpentNone(tbl, croot, 0);
      while va < sz
        invariant va == PGSIZE * k && k <= Pages(sz) && Valid() && IsRoot(proot) && IsRoot(croot)
                  && Widened(m0, o0, t0, mem, own, tbl, croot)
        invariant forall v: nat {:trigger Trans(mem, tbl, croot, v)} ::
                    v >= k ==> Trans(mem, tbl, croot, v) == Trans(m0, t0, croot, v)
        invariant forall v: nat {:trigger PageCopied(m0, t0, proot, mem, tbl, croot, v)} ::
                    v < k ==> PageCopied(m0, t0, proot, mem, tbl, croot, v)
        invariant Spent(tbl, croot, 0, k, free0 - |free|)
        decreases sz - va
      {
        ghost var m1, o1, t1, f1 := mem, own, tbl, |free|;
        VpnOfPage(k, sz);
        WidenedAt(m0, o0, t0, m1, o1, t1, croot, proot, k);
        assert UserOnly(m0, t0, proot, k) && Trans(m0, t0, croot, k) == None;
        SpendStep(t1, croot, 0, k, free0 - f1, Pages(sz));
        MissingLate(m1, o1, t1, croot, k);
        ok, r := CopyPage(proot, croot, va);
        if !ok || !r {
          if ok { WidenedTrans(m0, o0, t0, m1, o1, t1, mem, own, tbl, croot); }
          return;
        }
        WidenedTrans(m0, o0, t0, m1, o1, t1, mem, own, tbl, croot);
        SpentMore(mem, own, tbl, croot, 0, k, t1, free0 - f1, free0 - |free|);
        forall v: nat | v < k + 1 ensures PageCopied(m0, t0, proot, mem, tbl, croot, v) {
          if v < k {
            assert PageCopied(m0, t0, proot, m1, t1, croot, v);
            CopiedStays(m0, t0, proot, m1, o1, t1, mem, own, tbl, croot, v);
          } else {
            CopiedFrom(m0, o0, t0, proot, m1, o1, t1, mem, tbl, croot, v);
          }
        }
        va, k := va + PGSIZE, k + 1;
      }
      return true, true;
    }

    /** The trampoline and the trapframe, mapped at the top of a new address space, where they share
        a table. */
    method MapTop(root: nat, trampoline: nat, tf: nat) returns (ok: bool)
      requires Valid() && IsRoot(root) && trampoline % PGSIZE == 0 && trampoline < MAXPA && trampoline !in mem
               && tf in own && own[tf] == Trapframe(root)
      requires forall v :: Trans(mem, tbl, root, v) == None
      modifies this
      ensures ok <==> Missing(old(tbl), root, TRAMPOLINE) <= |old(free)|
      ensures ok ==> |free| == |old(free)| - Missing(old(tbl), root, TRAMPOLINE)
      ensures ok ==> Valid() && Widened(old(mem), old(own), old(tbl), mem, own, tbl, root) && IsRoot(root)
                     && OnlyTop(mem, tbl, root) && TopIs(mem, tbl, root, trampoline, tf)
    {
      hide TreeOk, FramesOk, ListOk, Private, Get, Trans, Missing, Widened;
      ghost var m0, o0, t0 := mem, own, tbl;
      FrameRange(mem, own, free, tf);
      MakePteParts(trampoline, PTE_R + PTE_X);
      MakePteParts(tf, PTE_R + PTE_W);
      ok := MapPage(root, TRAMPOLINE, trampoline, PTE_R + PTE_X);
      if !ok { return; }
      MappedWidened(m0, o0, t0, mem, own, tbl, root, TRAMPOLINE, trampoline, PTE_R + PTE_X);
      ghost var m1, o1, t1 := mem, own, tbl;
      TopShares(mem, own, tbl, root);
      ok := MapPage(root, TRAPFRAME, tf, PTE_R + PTE_W);
      MappedWidened(m1, o1, t1, mem, own, tbl, root, TRAPFRAME, tf, PTE_R + PTE_W);
      WidenedTrans(m0, o0, t0, m1, o1, t1, mem, own, tbl, root);
    }

    /** A page for the kernel's own use. */
    method AllocKernel(ghost role: Role, ghost root: nat) returns (pa: nat)
      requires Valid() && (role == Kstack || role.Trapframe?)
      modifies this`freelist, this`free, this`own
      ensures Valid() && Widened(mem, old(own), tbl, mem, own, tbl, root) && (pa == 0 <==> old(free) == [])
      ensures if pa == 0 then free == old(free) && own == old(own)
              else pa in own && own[pa] == role && pa !in old(own) && |free| == |old(free)| - 1
    {
      hide TreeOk, FramesOk, ListOk, Private, Get, Trans;
      OwnIn(mem, own, free);
      pa := AllocPage(role);
    }

    /** alloc_process, as far as memory goes: a kernel stack, an empty address space, a trapframe,
        and the two pages at the top, five pages in all. `tf` is 0 when alloc_page fails, which
        leaks what was taken; `ok` is false when a page table cannot be had. */
    method AllocProcess(trampoline: nat) returns (ok: bool, kstack: nat, root: nat, tf: nat)
      requires Valid() && trampoline % PGSIZE == 0 && trampoline < MAXPA && trampoline !in mem
      modifies this
      ensures ok <==> |old(free)| == 0 || |old(free)| == 2 || |old(free)| >= 5
      ensures ok && tf != 0 <==> |old(free)| >= 5
      ensures ok ==> Valid() && Widened(old(mem), old(own), old(tbl), mem, own, tbl, root) && root !in old(own)
      ensures ok && tf != 0 ==> && IsRoot(root) && |free| == |old(free)| - 5
                                && tf in own && own[tf] == Trapframe(root) && tf !in old(own)
                                && kstack in own && own[kstack] == Kstack && kstack !in old(own)
                                && OnlyTop(mem, tbl, root) && TopIs(mem, tbl, root, trampoline, tf)
    {
      hide TreeOk, FramesOk, ListOk, Private, Get, Trans, OnlyTop, TopIs, Missing;
      ghost var m0, o0, t0 := mem, own, tbl;
      ok, root, tf := true, 0, 0;
      NoNull(mem, own, free);
      kstack := AllocKernel(Kstack, root);
      if kstack == 0 { return; }
      ghost var o1 := own;
      ok, root := CreatePagetable();
      if !ok { return; }
      ghost var m2, o2, t2 := mem, own, tbl;
      GrownWidened(m0, o1, t0, m2, o2, t2, root);
      WidenedTrans(m0, o0, t0, m0, o1, t0, m2, o2, t2, root);
      tf := AllocKernel(Trapframe(root), root);
      ghost var o3 := own;
      WidenedTrans(m0, o0, t0, m2, o2, t2, m2, o3, t2, root);
      if tf == 0 { return; }
      assert Missing(tbl, root, TRAMPOLINE) == 2;
      ok := MapTop(root, trampoline, tf);
      if ok { WidenedTrans(m0, o0, t0, m2, o3, t2, mem, own, tbl, root); }
    }

    /** fork, as far as memory goes: the child sees what the parent sees below `sz`, in pages of
        its own, and its trapframe is the parent's but for a0. Nobody else sees a difference. It
        succeeds when there are five pages, one for each page to copy and the tables that the
        child can need. */
    method Fork(proot: nat, sz: nat, ptf: nat, trampoline: nat)
      returns (ok: bool, r: bool, kstack: nat, croot: nat, ctf: nat)
      requires Valid() && IsRoot(proot) && sz <= TRAPFRAME && ptf in own && own[ptf].Trapframe?
      requires trampoline % PGSIZE == 0 && trampoline < MAXPA && trampoline !in mem
      requires UsersBelow(mem, tbl, proot, sz)
      modifies this
      ensures |old(free)| >= 5 + Pages(sz) + Tables(0, Pages(sz)) ==> ok && r
      ensures ok ==> Valid() && Widened(old(mem), old(own), old(tbl), mem, own, tbl, croot) && croot !in old(own)
      ensures ok && r ==> croot != proot && IsRoot(croot) && SeesCopy(old(mem), old(tbl), proot, mem, tbl, croot, sz)
      ensures ok && r ==> TopIs(mem, tbl, croot, trampoline, ctf)
                          && ChildMap(old(mem), old(tbl), proot, mem, tbl, croot, sz)
      ensures ok && r ==> kstack in own && own[kstack] == Kstack && kstack !in old(own)
      ensures ok && r ==> TrapframeCopied(old(mem), old(own), mem, own, ptf, croot, ctf)
    {
      hide TreeOk, FramesOk, ListOk, Private, Get, Put, Trans, Widened, OnlyTop, TopIs, UserOnly, PageCopied, SeesCopy,
           Pages, Tables, ChildMap;
      ghost var m0, o0, t0 := mem, own, tbl;
      OwnIn(mem, own, free);
      RootIn(mem, own, tbl, proot);
      TablesOwned(mem, own, tbl);
      assert forall v: nat :: v < Pages(sz) ==> UserOnly(mem, tbl, proot, v);
      ok, kstack, croot, ctf := AllocProcess(trampoline);
      r := false;
      if !ok || ctf == 0 { return; }
      ghost var m1, o1, t1 := mem, own, tbl;
      ForkStart(m0, o0, t0, m1, o1, t1, proot, croot, sz);
      ok, r := CopyPages(proot, croot, sz);
      if !ok { return; }
      ghost var m2, o2, t2 := mem, own, tbl;
      WidenedTrans(m0, o0, t0, m1, o1, t1, m2, o2, t2, croot);
      if !r { return; }
      ForkCopied(m0, o0, t0, m1, o1, t1, m2, o2, t2, proot, croot, sz);
      ForkMapped(m0, o0, t0, m1, o1, t1, m2, t2, proot, croot, sz, trampoline, ctf);
      WidenedPage(m0, o0, t0, m2, o2, t2, croot, ptf);
      WidenedPage(m1, o1, t1, m2, o2, t2, croot, ctf);
      WidenedPage(m1, o1, t1, m2, o2, t2, croot, kstack);
      CopyTrapframe(ptf, ctf);
      SameCopy(m0, t0, proot, m2, o2, mem, tbl, croot, sz, ctf);
      SameMaps(m0, t0, proot, m2, mem, tbl, croot, sz, trampoline, ctf);
      WidenedLate(m0, o0, t0, m2, o2, tbl, mem, croot, ctf);
    }

    /** The trapframe is copied and the child's a0 cleared. */
    method CopyTrapframe(ptf: nat, ctf: nat)
      requires Valid() && ptf in own && ctf in own && own[ctf].Trapframe? && ptf in mem && ctf in mem && ptf != ctf
      modifies this`mem
      ensures Valid() && mem == old(mem)[ctf := Put(old(mem)[ptf], A0, 8, 0)]
      ensures forall r, v :: Trans(mem, tbl, r, v) == Trans(old(mem), tbl, r, v)
    {
      hide TreeOk, FramesOk, ListOk, Private, Get, Put, Trans;
      var page: Page := Put(mem[ptf], A0, 8, 0);
      NoTable(mem, own, tbl, ctf);
      PageWrite(mem, freelist, own, free, tbl, ctf, page);
      mem := mem[ctf := mem[ptf]];
      mem := mem[ctf := Put(mem[ctf], A0, 8, 0)];
      assert mem == old(mem)[ctf := page];
      PrivateKeep(old(mem), own, tbl, mem, own, tbl);
    }

    /** One page of sbrk: zeroed, and mapped at `va`. It needs that page and the missing tables. */
    method GrowPage(root: nat, va: nat) returns (ok: bool, r: bool)
      requires Valid() && IsRoot(root)
      modifies this
      ensures ok ==> Valid() && IsRoot(root) && Widened(old(mem), old(own), old(tbl), mem, own, tbl, root)
      ensures ok ==> forall v: nat {:trigger Trans(mem, tbl, root, v)} ::
                       v != Vpn(va) ==> Trans(mem, tbl, root, v) == Trans(old(mem), old(tbl), root, v)
      ensures ok && r ==> ZeroPage(mem, tbl, root, Vpn(va))
      ensures ok && !r ==> Trans(mem, tbl, root, Vpn(va)) == Trans(old(mem), old(tbl), root, Vpn(va))
      ensures ok && !r <==> old(free) == []
      ensures ok && r <==> 1 + Missing(old(tbl), root, va) <= |old(free)|
      ensures ok && r ==> |free| == |old(free)| - 1 - Missing(old(tbl), root, va) && Way(root, va, 0) in tbl
    {
      hide TreeOk, FramesOk, ListOk, Private, Get, Trans, Missing;
      ghost var m0, o0, t0 := mem, own, tbl;
      WidenedSame(mem, own, tbl, free, root);
      OwnIn(mem, own, free);
      var pa := AllocPage(User(root, Vpn(va)));
      if pa == 0 { return true, false; }
      NoTable(mem, own, tbl, pa);
      FrameRange(mem, own, free, pa);
      ClearPage(pa);
      ghost var m1, o1, t1 := mem, own, tbl;
      DupWidened(m0, o0, t0, m1, o1, pa, root);
      MakePteParts(pa, PTE_R + PTE_W + PTE_X + PTE_U);
      ok := MapPage(root, va, pa, PTE_R + PTE_W + PTE_X + PTE_U);
      if ok {
        MappedWidened(m1, o1, t1, mem, own, tbl, root, va, pa, PTE_R + PTE_W + PTE_X + PTE_U);
        WidenedTrans(m0, o0, t0, m1, o1, t1, mem, own, tbl, root);
        WidenedPage(m1, o1, t1, mem, own, tbl, root, pa);
      }
      return ok, true;
    }

    /** The loop of sbrk, from page `lo` on. `ok` and `r` are as for one page. */
    method GrowPages(root: nat, lo: nat, newsz: nat) returns (ok: bool, r: bool)
      requires Valid() && IsRoot(root) && lo <= Pages(newsz)
      requires newsz <= TRAPFRAME || (Full(mem, tbl, root, lo) && |mem.Keys| < Vpn(TRAPFRAME))
      modifies this
      ensures |old(free)| >= Pages(newsz) - lo + Tables(lo, Pages(newsz)) ==> ok && r
      ensures ok ==> Valid() && Widened(old(mem), old(own), old(tbl), mem, own, tbl, root)
                     && HeapOnly(old(mem), old(tbl), mem, tbl, root, lo)
      ensures ok && r ==> SeesZeros(old(mem), old(tbl), mem, tbl, root, lo, Pages(newsz))
                          && HeapGrown(old(mem), old(tbl), mem, tbl, root, lo, Pages(newsz))
      ensures ok && Full(old(mem), old(tbl), root, lo) ==> Full(mem, tbl, root, if r then Pages(newsz) else lo)
    {
      hide TreeOk, FramesOk, ListOk, Private, Get, Trans, ZeroPage, Widened, Vpn, Tables, Late, Full, HeapOnly,
           HeapGrown;
      ghost var m0, o0, t0, free0 := mem, own, tbl, |free|;
      WidenedSame(mem, own, tbl, free, root);
      SpentNone(tbl, root, lo);
      var a, k := PGSIZE * lo, lo;
      while a < newsz
        invariant a == PGSIZE * k && lo <= k <= Pages(newsz) && Valid() && IsRoot(root)
                  && Widened(m0, o0, t0, mem, own, tbl, root)
        invariant mem.Keys == m0.Keys && (k == lo || k <= Vpn(TRAPFRAME))
                  && (Full(m0, t0, root, lo) ==> Full(mem, tbl, root, k))
        invariant forall v: nat {:trigger ZeroPage(mem, tbl, root, v)} :: lo <= v < k ==> ZeroPage(mem, tbl, root, v)
        invariant forall v: nat {:trigger Trans(mem, tbl, root, v)} ::
                    !(lo <= v < k) ==> Trans(mem, tbl, root, v) == Trans(m0, t0, root, v)
        invariant Spent(tbl, root, lo, k, free0 - |free|)
        decreases newsz - a
      {
        ghost var m1, o1, t1, f1 := mem, own, tbl, |free|;
        BelowTop(mem, own, tbl, free, root, k, newsz);
        SpendStep(t1, root, lo, k, free0 - f1, Pages(newsz));
        MissingLate(m1, o1, t1, root, k);
        ok, r := GrowPage(root, a);
        if !ok { return; }
        WidenedTrans(m0, o0, t0, m1, o1, t1, mem, own, tbl, root);
        forall v: nat | lo <= v < k ensures ZeroPage(mem, tbl, root, v) {
          assert ZeroPage(m1, t1, root, v);
          ZeroStays(m1, o1, t1, mem, own, tbl, root, v);
        }
        if !r {
          HeapIs(m0, t0, mem, tbl, root, lo, k);
          if Full(m0, t0, root, lo) { FullSame(m0, t0, mem, tbl, root, lo); }
          return;
        }
        SpentMore(mem, own, tbl, root, lo, k, t1, free0 - f1, free0 - |free|);
        if Full(m0, t0, root, lo) { FullMore(m1, t1, mem, tbl, root, k); }
        a, k := a + PGSIZE, k + 1;
      }
      PagesEnd(k, newsz);
      HeapIs(m0, t0, mem, tbl, root, lo, k);
      ZerosSeen(m0, o0, t0, mem, own, tbl, root, lo, k);
      return true, true;
    }

    /** sbrk: the pages up to the new size read as zero, all else as before. `r` is false for -1,
        `sz` then being the old size. A page for each new one and the tables that they can need are
        enough. Whatever `n` is, memory runs out before the heap reaches the trapframe, if all pages
        below the old size are mapped. A size below zero wraps around, for sizes are unsigned. */
    method Sbrk(root: nat, oldsz: nat, n: int) returns (ok: bool, r: bool, sz: nat)
      requires Valid() && IsRoot(root) && oldsz < U64 && -0x8000_0000 <= n < 0x8000_0000
      requires n > 0 ==> oldsz + n <= TRAPFRAME || (Full(mem, tbl, root, Pages(oldsz)) && |mem.Keys| < Vpn(TRAPFRAME))
      modifies this
      ensures n <= 0 ==> ok && r && mem == old(mem) && own == old(own) && tbl == old(tbl) && free == old(free)
      ensures n > 0 && |old(free)| >= Pages(oldsz + n) - Pages(oldsz) + Tables(Pages(oldsz), Pages(oldsz + n)) ==>
              ok && r
      ensures ok ==> Valid() && Widened(old(mem), old(own), old(tbl), mem, own, tbl, root)
                     && HeapOnly(old(mem), old(tbl), mem, tbl, root, Pages(oldsz))
      ensures ok ==> sz == if r then (oldsz + n) % U64 else oldsz
      ensures n > 0 && ok && r ==>
              sz == oldsz + n && SeesZeros(old(mem), old(tbl), mem, tbl, root, Pages(oldsz), Pages(sz))
              && HeapGrown(old(mem), old(tbl), mem, tbl, root, Pages(oldsz), Pages(sz))
      ensures ok && 0 <= oldsz + n && Full(old(mem), old(tbl), root, Pages(oldsz)) ==> Full(mem, tbl, root, Pages(sz))
    {
      hide TreeOk, FramesOk, ListOk, Private, Get, Trans, Widened, Vpn, Tables, Full, HeapOnly, HeapGrown;
      WidenedSame(mem, own, tbl, free, root);
      HeapIs(mem, tbl, mem, tbl, root, Pages(oldsz), Pages(oldsz));
      ok, r, sz := true, true, (oldsz + n) % U64;
      if n > 0 {
        SmallHeap(mem, own, tbl, free, root, oldsz, n);
        PagesMono(oldsz, sz);
        UpAligned(oldsz);
        ok, r := GrowPages(root, Pages(oldsz), sz);   // from PGGROUNDUP(oldsz) on
        if !r { sz := oldsz; }
      } else if 0 <= oldsz + n {
        PagesMono(sz, oldsz);
        if Full(mem, tbl, root, Pages(oldsz)) { FullLess(mem, tbl, root, Pages(oldsz), Pages(sz)); }
      }
    }

    /** pmm_init: every page from the end of the kernel on is free. */
    constructor PmmInit(image: Mem, end: nat)
      requires 0 < end && forall f :: f in image <==> f % PGSIZE == 0 && RoundUp(end) <= f && f + PGSIZE <= PHYSTOP
      ensures Valid() && own == map[] && tbl == map[] && mem.Keys == image.Keys && forall f :: f in image <==> f in free
    {
      hide FramesOk, ListOk, TreeOk, Private, Trans;
      mem, freelist := image, 0;
      free, own, tbl := [], map f | f in image :: Boot, map[];
      new;
      AllUsed(image);
      var pa := RoundUp(end);
      UpAligned(end);
      while pa + PGSIZE <= PHYSTOP
        invariant pa % PGSIZE == 0 && RoundUp(end) <= pa && Valid() && mem.Keys == image.Keys && tbl == map[]
        invariant forall f :: f in own <==> f in image && pa <= f
        invariant forall f :: f in own ==> own[f] == Boot
      {
        FreePage(pa);
        NextPage(pa);
        pa := pa + PGSIZE;
      }
      assert own == map[];
      AllFree(mem, free);
    }
  }

  lemma NullFree(m: Mem, head: nat, own: map<nat, Role>, free: seq<nat>)
    requires FramesOk(m, own, free) && ListOk(m, head, free)
    ensures head == 0 <==> free == []
  {
    hide Get;
    if free != [] { assert free[0] in m; }
  }

  /** A page that is neither a table nor mapped leaves the trees alone. */
  lemma TreeDrop(m: Mem, m': Mem, own: map<nat, Role>, tbl: map<Pos, nat>, pa: nat)
    requires TreeOk(m, own, tbl) && Private(m, own, tbl) && pa in own && (own[pa] == Kstack || own[pa] == Boot)
    requires m'.Keys == m.Keys && forall f :: f in m && f != pa ==> m'[f] == m[f]
    ensures TreeOk(m', own - {pa}, tbl) && Private(m', own - {pa}, tbl)
            && forall r, v :: Trans(m', tbl, r, v) == Trans(m, tbl, r, v)
  {
    hide Pte;
    var own' := own - {pa};
    forall p | p in tbl ensures tbl[p] in m && tbl[p] != pa { assert TablePage(m, own, tbl, p); }
    TreeFrame(m, m', own, tbl);
    forall p | p in tbl ensures TablePage(m', own', tbl, p) { assert TablePage(m, own, tbl, p); }
    forall p, idx | p in tbl && 0 <= idx < NPTE
      ensures EntryOk(m', own', tbl, p, idx)
    {
      assert EntryOk(m', own, tbl, p, idx);
    }
    forall r, v | Trans(m', tbl, r, v).Some? ensures MapOk(m', own', r, v, Trans(m', tbl, r, v).value) {
      assert MapOk(m, own, r, v, Trans(m, tbl, r, v).value);
    }
  }

  /** Overwriting a page in use that is no table. */
  lemma PageWrite(m: Mem, head: nat, own: map<nat, Role>, free: seq<nat>, tbl: map<Pos, nat>, f: nat, page: Page)
    requires FramesOk(m, own, free) && ListOk(m, head, free) && TreeOk(m, own, tbl) && f in own
    requires forall p :: p in tbl ==> tbl[p] != f
    ensures f in m && FramesOk(m[f := page], own, free) && ListOk(m[f := page], head, free)
            && TreeOk(m[f := page], own, tbl)
    ensures forall r, v :: Trans(m[f := page], tbl, r, v) == Trans(m, tbl, r, v)
  {
    hide FramesOk, ListOk;
    UsedWrite(m, head, own, free, f, page);
    forall p | p in tbl ensures tbl[p] in m { assert TablePage(m, own, tbl, p); }
    TreeFrame(m, m[f := page], own, tbl);
  }

  lemma RootWay(m: Mem, own: map<nat, Role>, tbl: map<Pos, nat>, root: nat, va: nat)
    requires TreeOk(m, own, tbl) && Pos(root, 2, 0) in tbl
    ensures Way(root, va, 2) in tbl && tbl[Way(root, va, 2)] == root
  {
    assert TablePage(m, own, tbl, Pos(root, 2, 0));
  }

  lemma RootOwned(m: Mem, own: map<nat, Role>, tbl: map<Pos, nat>, r: nat)
    requires TreeOk(m, own, tbl)
    ensures Pos(r, 2, 0) in tbl ==> tbl[Pos(r, 2, 0)] == r
  {
    assert Pos(r, 2, 0) in tbl ==> TablePage(m, own, tbl, Pos(r, 2, 0));
  }

  lemma OwnIn(m: Mem, own: map<nat, Role>, free: seq<nat>)
    requires FramesOk(m, own, free)
    ensures forall g :: g in own ==> g in m
  {
  }

  lemma NoNull(m: Mem, own: map<nat, Role>, free: seq<nat>)
    requires FramesOk(m, own, free)
    ensures 0 !in own
  {
  }

  lemma FrameRange(m: Mem, own: map<nat, Role>, free: seq<nat>, f: nat)
    requires FramesOk(m, own, free) && f in own
    ensures f in m && f % PGSIZE == 0 && 0 < f < MAXPA
  {
  }

  lemma TablesOwned(m: Mem, own: map<nat, Role>, tbl: map<Pos, nat>)
    requires TreeOk(m, own, tbl)
    ensures forall p {:trigger tbl[p]} :: p in tbl ==> tbl[p] in own && own[tbl[p]] == Tab(p)
  {
    forall p | p in tbl ensures tbl[p] in own && own[tbl[p]] == Tab(p) { assert TablePage(m, own, tbl, p); }
  }

  lemma SameVpn(va: nat, a: nat)
    requires va / PGSIZE == a / PGSIZE || a == RoundDown(va)
    ensures Vpn(a) == Vpn(va) && RoundDown(va) <= va < RoundDown(va) + PGSIZE && va - RoundDown(va) == va % PGSIZE
  {
  }

  /** A user mapping points to a page that is in use for it. */
  lemma UserOwned(m: Mem, own: map<nat, Role>, tbl: map<Pos, nat>, root: nat, v: nat)
    requires Private(m, own, tbl)
    ensures var t := Trans(m, tbl, root, v);
            t.Some? && IsU(t.value) ==> PtePa(t.value) in own && own[PtePa(t.value)] == User(root, v)
  {
    hide Trans;
    assert Trans(m, tbl, root, v).Some? ==> MapOk(m, own, root, v, Trans(m, tbl, root, v).value);
  }

  /** Two user mappings, of whatever address spaces, never share a page. */
  lemma FramesApart(m: Mem, own: map<nat, Role>, tbl: map<Pos, nat>, r: nat, v: nat, r': nat, v': nat)
    requires Private(m, own, tbl) && (r != r' || v != v')
    ensures var t, t' := Trans(m, tbl, r, v), Trans(m, tbl, r', v');
            t.Some? && IsU(t.value) && t'.Some? && IsU(t'.value) ==> PtePa(t.value) != PtePa(t'.value)
  {
    hide Private, Trans;
    UserOwned(m, own, tbl, r, v);
    UserOwned(m, own, tbl, r', v');
  }

  lemma SeenAt(m: Mem, tbl: map<Pos, nat>, root: nat, va: nat, top: nat)
    requires va < top
    ensures va in Seen(m, tbl, root, top) <==> UserAt(m, tbl, root, va).Some?
    ensures va in Seen(m, tbl, root, top) ==> Seen(m, tbl, root, top)[va] == UserAt(m, tbl, root, va).value
  {
    hide UserAt;
  }

  lemma FlatIs(m: Mem, tbl: map<Pos, nat>, root: nat)
    ensures Flat(m, tbl, root) == Seen(m, tbl, root, VASPACE)
  {
  }

  lemma FoldedAt(m: Mem, tbl: map<Pos, nat>, root: nat, va: nat, dstva: nat, k: nat)
    requires va == dstva + k && dstva % VASPACE + k < VASPACE
    ensures var a := dstva % VASPACE + k; Vpn(a) == Vpn(va) && a % PGSIZE == va % PGSIZE
                                          && UserAt(m, tbl, root, a) == UserAt(m, tbl, root, va)
  {
    hide Trans, Vpn;
    var d := dstva % VASPACE;
    assert va == VASPACE * (dstva / VASPACE) + (d + k);
    assert va % VASPACE == d + k;
    Folded(va);
  }

  /** Mapped bytes do not reach the end of the address space. */
  lemma NotLast(m: Mem, tbl: map<Pos, nat>, root: nat, d: nat, k: nat, n: nat)
    requires Mapped(Flat(m, tbl, root), d, k) && d < VASPACE && d + k <= VASPACE && k < n
    requires d + n <= VASPACE || UserAt(m, tbl, root, VASPACE - 1).None?
    ensures d + k < VASPACE
  {
    hide UserAt, Flat;
    FlatAt(m, tbl, root, VASPACE - 1);
  }

  lemma InLastPage(a: nat, n: nat)
    requires a < VASPACE && a % PGSIZE + n <= PGSIZE
    ensures a + n <= VASPACE
  {
  }

  lemma FlatAt(m: Mem, tbl: map<Pos, nat>, root: nat, va: nat)
    requires va < VASPACE
    ensures va in Flat(m, tbl, root) <==> UserAt(m, tbl, root, va).Some?
    ensures va in Flat(m, tbl, root) ==> Flat(m, tbl, root)[va] == UserAt(m, tbl, root, va).value
  {
    hide UserAt;
  }

  /** Within a page, user memory is the page. */
  lemma PageFetch(m: Mem, tbl: map<Pos, nat>, root: nat, va: nat, n: nat, top: nat)
    requires UserAt(m, tbl, root, va).Some? && va % PGSIZE + n <= PGSIZE && va + n <= top
    ensures Trans(m, tbl, root, Vpn(va)).Some? && PtePa(Trans(m, tbl, root, Vpn(va)).value) in m
    ensures Fetch(Seen(m, tbl, root, top), va, n) ==
            Some(m[PtePa(Trans(m, tbl, root, Vpn(va)).value)][va % PGSIZE..va % PGSIZE + n])
  {
    hide Trans;
    var u, page := Seen(m, tbl, root, top), m[PtePa(Trans(m, tbl, root, Vpn(va)).value)];
    forall a | va <= a < va + n ensures a in u && u[a] == page[va % PGSIZE + (a - va)] {
      PageOff(va, a - va);
      SameVpn(va, a);
      SeenAt(m, tbl, root, a, top);
    }
    assert Mapped(u, va, n);
    assert Fetch(u, va, n).value == page[va % PGSIZE..va % PGSIZE + n];
  }

  lemma PageOff(va: nat, k: nat)
    requires va % PGSIZE + k < PGSIZE
    ensures (va + k) / PGSIZE == va / PGSIZE && (va + k) % PGSIZE == va % PGSIZE + k
  {
  }

  lemma FetchNone(u: map<nat, byte>, va: nat)
    ensures Fetch(u, va, 0) == Some([])
  {
  }

  lemma FetchMiss(u: map<nat, byte>, va: nat, n: nat, a: nat)
    requires va <= a < va + n && a !in u
    ensures Fetch(u, va, n) == None
  {
  }

  lemma FetchJoin(u: map<nat, byte>, va: nat, a: nat, b: nat)
    requires Fetch(u, va, a).Some? && Fetch(u, va + a, b).Some?
    ensures Fetch(u, va, a + b) == Some(Fetch(u, va, a).value + Fetch(u, va + a, b).value)
  {
    assert Mapped(u, va, a + b);
    assert Fetch(u, va, a + b).value == Fetch(u, va, a).value + Fetch(u, va + a, b).value;
  }

  /** Only the user pages of `root` have changed, and no translation. */
  ghost predicate Elsewhere(m: Mem, m': Mem, own: map<nat, Role>, tbl: map<Pos, nat>, root: nat) {
    && m'.Keys == m.Keys
    && (forall f {:trigger m'[f]} :: f in m && f in own && !(own[f].User? && own[f].root == root) ==> m'[f] == m[f])
    && (forall r, v {:trigger Trans(m', tbl, r, v)} :: Trans(m', tbl, r, v) == Trans(m, tbl, r, v))
    && (forall r {:trigger Flat(m', tbl, r)} :: r != root ==> Flat(m', tbl, r) == Flat(m, tbl, r))
  }

  lemma MappedZero(u: map<nat, byte>, va: nat)
    ensures Mapped(u, va, 0)
  {
  }

  lemma StoredZero(u: map<nat, byte>, va: nat)
    ensures Stored(u, va, []) == u
  {
  }

  lemma StoredKeys(u: map<nat, byte>, va: nat, src: seq<byte>)
    ensures Stored(u, va, src).Keys == u.Keys
  {
    StoredAt(u, va, src, 0);
  }

  lemma FetchMapped(u: map<nat, byte>, va: nat, n: nat)
    requires Fetch(u, va, n).Some?
    ensures Mapped(u, va, n)
  {
  }

  /** The store stops where nothing is accessible. */
  lemma StoredStop(u: map<nat, byte>, va: nat, src: seq<byte>, k: nat)
    requires k < |src| && Mapped(u, va, k) && va + k !in u
    ensures Stored(u, va, src) == Stored(u, va, src[..k]) && !Mapped(u, va, |src|)
  {
    assert src == src[..k] + src[k..];
    StoredConcat(u, va, src[..k], src[k..]);
    StoredKeys(u, va, src[..k]);
  }

  lemma StoredStep(u: map<nat, byte>, va: nat, src: seq<byte>, k: nat, n: nat)
    requires k + n <= |src| && Mapped(u, va, k) && Mapped(Stored(u, va, src[..k]), va + k, n)
    ensures Mapped(u, va, k + n)
            && Stored(u, va, src[..k + n]) == Stored(Stored(u, va, src[..k]), va + k, src[k..k + n])
  {
    assert src[..k + n] == src[..k] + src[k..k + n];
    StoredConcat(u, va, src[..k], src[k..k + n]);
    StoredKeys(u, va, src[..k]);
  }

  lemma NoTable(m: Mem, own: map<nat, Role>, tbl: map<Pos, nat>, f: nat)
    requires TreeOk(m, own, tbl) && f in own && !own[f].Tab?
    ensures forall p :: p in tbl ==> tbl[p] != f
  {
    TablesOwned(m, own, tbl);
  }

  /** One byte of user memory after a store within one page. */
  lemma StoreByte(m: Mem, own: map<nat, Role>, tbl: map<Pos, nat>, root: nat, va: nat, pa: nat, part: seq<byte>, a: nat)
    requires Private(m, own, tbl) && pa in m && pa in own && own[pa] == User(root, Vpn(va))
    requires UserAt(m, tbl, root, va).Some? && PtePa(Trans(m, tbl, root, Vpn(va)).value) == pa
    requires va % PGSIZE + |part| <= PGSIZE && va < VASPACE && a < VASPACE
    ensures var m' := m[pa := Overlay(m[pa], va % PGSIZE, part)];
            Trans(m', tbl, root, Vpn(a)) == Trans(m, tbl, root, Vpn(a)) ==>
              && (UserAt(m', tbl, root, a).Some? <==> UserAt(m, tbl, root, a).Some?)
              && (UserAt(m, tbl, root, a).Some? ==>
                    UserAt(m', tbl, root, a).value == if va <= a < va + |part| then part[a - va]
                                                      else UserAt(m, tbl, root, a).value)
  {
    hide Private, Trans;
    UserOwned(m, own, tbl, root, Vpn(a));
    PageIndex(a, va);
    if va <= a < va + |part| { PageOff(va, a - va); SameVpn(va, a); }
  }

  /** Storing within one page. */
  lemma PageStore(m: Mem, own: map<nat, Role>, tbl: map<Pos, nat>, root: nat, va: nat, pa: nat, part: seq<byte>)
    requires TreeOk(m, own, tbl) && Private(m, own, tbl) && pa in m && pa in own && own[pa] == User(root, Vpn(va))
    requires UserAt(m, tbl, root, va).Some? && PtePa(Trans(m, tbl, root, Vpn(va)).value) == pa
    requires va % PGSIZE + |part| <= PGSIZE && va < VASPACE && va + |part| <= VASPACE
    ensures var m' := m[pa := Overlay(m[pa], va % PGSIZE, part)];
            && Flat(m', tbl, root) == Stored(Flat(m, tbl, root), va, part)
            && Elsewhere(m, m', own, tbl, root)
  {
    hide TreeOk, Private, Trans, Stored, Overlay, UserAt, Flat;
    var m' := m[pa := Overlay(m[pa], va % PGSIZE, part)];
    NoTable(m, own, tbl, pa);
    TablesIn(m, own, tbl);
    TreeFrame(m, m', own, tbl);
    FlatStore(m, m', own, tbl, root, va, pa, part);
    forall r: nat | r != root ensures Flat(m', tbl, r) == Flat(m, tbl, r) {
      OtherFlat(m, m', own, tbl, r, pa);
    }
  }

  lemma FlatStore(m: Mem, m': Mem, own: map<nat, Role>, tbl: map<Pos, nat>, root: nat, va: nat, pa: nat,
      part: seq<byte>)
    requires Private(m, own, tbl) && pa in m && pa in own && own[pa] == User(root, Vpn(va))
    requires UserAt(m, tbl, root, va).Some? && PtePa(Trans(m, tbl, root, Vpn(va)).value) == pa
    requires va % PGSIZE + |part| <= PGSIZE && va < VASPACE && va + |part| <= VASPACE
    requires m' == m[pa := Overlay(m[pa], va % PGSIZE, part)]
             && forall v :: Trans(m', tbl, root, v) == Trans(m, tbl, root, v)
    ensures Flat(m', tbl, root) == Stored(Flat(m, tbl, root), va, part)
  {
    hide Private, Trans, Stored, Overlay, UserAt, Flat, Mapped;
    var u, u' := Flat(m, tbl, root), Flat(m', tbl, root);
    FlatIs(m, tbl, root);
    PageFetch(m, tbl, root, va, |part|, VASPACE);
    FetchMapped(u, va, |part|);
    StoredKeys(u, va, part);
    var w := Stored(u, va, part);
    forall a: nat ensures (a in u' <==> a in w) && (a in u' ==> u'[a] == w[a]) {
      StoredAt(u, va, part, a);
      if a < VASPACE {
        StoreByte(m, own, tbl, root, va, pa, part, a);
        FlatAt(m, tbl, root, a);
        FlatAt(m', tbl, root, a);
      } else {
        FlatBound(m, tbl, root, a);
        FlatBound(m', tbl, root, a);
      }
    }
    assert u'.Keys == w.Keys;
  }

  lemma FlatBound(m: Mem, tbl: map<Pos, nat>, root: nat, a: nat)
    requires a >= VASPACE
    ensures a !in Flat(m, tbl, root)
  {
  }

  lemma TablesIn(m: Mem, own: map<nat, Role>, tbl: map<Pos, nat>)
    requires TreeOk(m, own, tbl)
    ensures forall p {:trigger tbl[p]} :: p in tbl ==> tbl[p] in m
  {
    forall p | p in tbl ensures tbl[p] in m { assert TablePage(m, own, tbl, p); }
  }

  /** Below VASPACE, the page number and the offset make the address. */
  lemma PageIndex(a: nat, va: nat)
    requires a < VASPACE && va < VASPACE
    ensures Vpn(a) == Vpn(va) <==> a / PGSIZE == va / PGSIZE
    ensures Vpn(a) == Vpn(va) ==> a - va == a % PGSIZE - va % PGSIZE
  {
  }

  /** A page in use for one address space is not seen from another. */
  lemma OtherFlat(m: Mem, m': Mem, own: map<nat, Role>, tbl: map<Pos, nat>, r: nat, pa: nat)
    requires Private(m, own, tbl) && m'.Keys == m.Keys && pa in own && !(own[pa].User? && own[pa].root == r)
    requires forall f :: f in m && f != pa ==> m'[f] == m[f]
    requires forall v :: Trans(m', tbl, r, v) == Trans(m, tbl, r, v)
    ensures Flat(m', tbl, r) == Flat(m, tbl, r)
  {
    hide Private, Trans;
    forall a: nat | a < VASPACE
      ensures UserAt(m', tbl, r, a) == UserAt(m, tbl, r, a)
    {
      UserOwned(m, own, tbl, r, Vpn(a));
    }
  }

  function Prepend(d: seq<byte>, o: Option<seq<byte>>): Option<seq<byte>> {
    match o case None => None case Some(t) => Some(d + t)
  }

  lemma PrependNone(o: Option<seq<byte>>)
    ensures Prepend([], o) == o
  {
    if o.Some? { assert [] + o.value == o.value; }
  }

  lemma PrependMore(d: seq<byte>, c: byte, o: Option<seq<byte>>)
    ensures Prepend(d, Prepend([c], o)) == Prepend(d + [c], o)
  {
    if o.Some? { assert d + ([c] + o.value) == d + [c] + o.value; }
  }

  /** The next byte decides. */
  lemma StrStep(u: map<nat, byte>, va: nat, left: nat)
    ensures Str(u, va, left) == if left == 0 || va !in u then None else if u[va] == 0 then Some([])
                                else Prepend([u[va]], Str(u, va + 1, left - 1))
  {
  }

  lemma FetchByte(u: map<nat, byte>, va: nat, page: seq<byte>, k: nat)
    requires Fetch(u, va, |page|) == Some(page) && k < |page|
    ensures va + k in u && u[va + k] == page[k]
  {
  }

  /** Pages below a process's size are user pages. */
  ghost predicate UserOnly(m: Mem, tbl: map<Pos, nat>, root: nat, v: nat) {
    Trans(m, tbl, root, v).Some? ==> IsU(Trans(m, tbl, root, v).value)
  }

  /** Pages have been taken and tables added, all for `croot`. */
  ghost predicate Widened(m: Mem, own: map<nat, Role>, tbl: map<Pos, nat>, m': Mem, own': map<nat, Role>,
      tbl': map<Pos, nat>, croot: nat) {
    && m'.Keys == m.Keys
    && (forall g {:trigger own'[g]} {:trigger g in own} :: g in own ==> g in own' && own'[g] == own[g])
    && (forall p {:trigger tbl'[p]} {:trigger p in tbl} :: p in tbl ==> p in tbl' && tbl'[p] == tbl[p])
    && (forall g {:trigger m'[g]} {:trigger m[g]} {:trigger g in own} ::
          g in own && !own[g].Tab? ==> g in m && m'[g] == m[g])
    && (forall r, v {:trigger Trans(m', tbl', r, v)} :: r != croot ==> Trans(m', tbl', r, v) == Trans(m, tbl, r, v))
  }

  lemma WidenedSame(m: Mem, own: map<nat, Role>, tbl: map<Pos, nat>, free: seq<nat>, croot: nat)
    requires FramesOk(m, own, free)
    ensures Widened(m, own, tbl, m, own, tbl, croot)
  {
  }

  lemma WidenedTrans(m: Mem, own: map<nat, Role>, tbl: map<Pos, nat>, m1: Mem, own1: map<nat, Role>,
      tbl1: map<Pos, nat>, m2: Mem, own2: map<nat, Role>, tbl2: map<Pos, nat>, croot: nat)
    requires Widened(m, own, tbl, m1, own1, tbl1, croot) && Widened(m1, own1, tbl1, m2, own2, tbl2, croot)
    ensures Widened(m, own, tbl, m2, own2, tbl2, croot)
  {
    forall g | g in own && !own[g].Tab? ensures g in m && g in m2 && m2[g] == m[g] {
      assert g in own1 && own1[g] == own[g];
      assert g in m && g in m1 && m1[g] == m[g];
    }
  }

  /** Page `v` of the child is a copy of the parent's, in a page of its own with all rights; or both
      have none. */
  ghost predicate PageCopied(m: Mem, tbl: map<Pos, nat>, proot: nat, m': Mem, tbl': map<Pos, nat>, croot: nat, v: nat) {
    var t, t' := Trans(m, tbl, proot, v), Trans(m', tbl', croot, v);
    if t.None? then t'.None?
    else AllRights(m', tbl', croot, v) && PtePa(t'.value) in m' && PtePa(t.value) in m
         && m'[PtePa(t'.value)] == m[PtePa(t.value)]
  }

  lemma WidenedAt(m: Mem, own: map<nat, Role>, tbl: map<Pos, nat>, m': Mem, own': map<nat, Role>, tbl': map<Pos, nat>,
      croot: nat, r: nat, v: nat)
    requires Widened(m, own, tbl, m', own', tbl', croot)
    ensures r != croot ==> Trans(m', tbl', r, v) == Trans(m, tbl, r, v)
    ensures Pos(r, 2, 0) in tbl ==> Pos(r, 2, 0) in tbl'
  {
  }

  /** A copied page stays as it is while others are copied. */
  lemma CopiedStays(m0: Mem, tbl0: map<Pos, nat>, proot: nat, m: Mem, own: map<nat, Role>, tbl: map<Pos, nat>,
    m': Mem, own': map<nat, Role>, tbl': map<Pos, nat>, croot: nat, v: nat)
    requires PageCopied(m0, tbl0, proot, m, tbl, croot, v) && Private(m, own, tbl)
    requires Widened(m, own, tbl, m', own', tbl', croot) && Trans(m', tbl', croot, v) == Trans(m, tbl, croot, v)
    ensures PageCopied(m0, tbl0, proot, m', tbl', croot, v)
  {
    hide Trans, Private;
    UserOwned(m, own, tbl, croot, v);
  }

  /** The parent's page was not touched before it was copied. */
  lemma CopiedFrom(m0: Mem, own0: map<nat, Role>, tbl0: map<Pos, nat>, proot: nat, m: Mem, own: map<nat, Role>,
      tbl: map<Pos, nat>, m': Mem, tbl': map<Pos, nat>, croot: nat, v: nat)
    requires PageCopied(m, tbl, proot, m', tbl', croot, v) && Private(m0, own0, tbl0) && UserOnly(m0, tbl0, proot, v)
             && proot != croot
    requires Widened(m0, own0, tbl0, m, own, tbl, croot)
    ensures PageCopied(m0, tbl0, proot, m', tbl', croot, v)
  {
    hide Trans, Private;
    WidenedAt(m0, own0, tbl0, m, own, tbl, croot, proot, v);
    UserOwned(m0, own0, tbl0, proot, v);
    var t := Trans(m0, tbl0, proot, v);
    if t.Some? { assert m[PtePa(t.value)] == m0[PtePa(t.value)]; }
  }

  lemma DupWidened(m: Mem, own: map<nat, Role>, tbl: map<Pos, nat>, m': Mem, own': map<nat, Role>, pa: nat, croot: nat)
    requires pa in m && pa !in own && m'.Keys == m.Keys && (forall g :: g in m && g != pa ==> m'[g] == m[g])
             && (forall g :: g in own ==> g in m)
    requires pa in own' && own' == own[pa := own'[pa]] && forall r, v :: Trans(m', tbl, r, v) == Trans(m, tbl, r, v)
    ensures Widened(m, own, tbl, m', own', tbl, croot)
  {
    hide Trans;
  }

  const A0 := 112     // offsetof(struct trapframe, a0)

  ghost predicate UsersBelow(m: Mem, tbl: map<Pos, nat>, root: nat, sz: nat) {
    forall v: nat :: v < Pages(sz) ==> UserOnly(m, tbl, root, v)
  }

  /** The new page `ctf` is the trapframe `ptf` with a0 zero. */
  ghost predicate TrapframeCopied(m: Mem, own: map<nat, Role>, m': Mem, own': map<nat, Role>, ptf: nat, croot: nat,
      ctf: nat) {
    && ptf in m && ctf in m' && ctf !in own && ctf in own' && own'[ctf] == Trapframe(croot)
    && m'[ctf] == Put(m[ptf], A0, 8, 0)
  }

  /** Below `sz`, rounded up to whole pages, `croot` sees what `proot` saw; above it, nothing. */
  ghost predicate SeesCopy(m: Mem, tbl: map<Pos, nat>, proot: nat, m': Mem, tbl': map<Pos, nat>, croot: nat, sz: nat) {
    forall a: nat {:trigger UserAt(m', tbl', croot, a)} :: a < VASPACE ==>
      UserAt(m', tbl', croot, a) == if a < PGSIZE * Pages(sz) then UserAt(m, tbl, proot, a) else None
  }

  lemma RootIn(m: Mem, own: map<nat, Role>, tbl: map<Pos, nat>, root: nat)
    requires TreeOk(m, own, tbl) && Pos(root, 2, 0) in tbl
    ensures root in own
  {
    assert TablePage(m, own, tbl, Pos(root, 2, 0));
  }

  lemma TopVpns(sz: nat, v: nat)
    requires sz <= TRAPFRAME
    ensures v == Vpn(TRAMPOLINE) || v == Vpn(TRAPFRAME) ==> v >= Pages(sz)
    ensures PGSIZE * Pages(sz) <= VASPACE && sz <= VASPACE
  {
  }

  /** The new address space is empty where the copy goes. */
  lemma ForkStart(m0: Mem, o0: map<nat, Role>, t0: map<Pos, nat>, m: Mem, own: map<nat, Role>, tbl: map<Pos, nat>,
      proot: nat, croot: nat, sz: nat)
    requires Widened(m0, o0, t0, m, own, tbl, croot) && OnlyTop(m, tbl, croot) && proot != croot && sz <= TRAPFRAME
             && Pos(proot, 2, 0) in t0
    requires forall v: nat :: v < Pages(sz) ==> UserOnly(m0, t0, proot, v)
    ensures Pos(proot, 2, 0) in tbl && sz <= VASPACE
    ensures forall v: nat :: v < Pages(sz) ==> UserOnly(m, tbl, proot, v) && Trans(m, tbl, croot, v) == None
  {
    hide Trans, Widened, Vpn, Pages;
    TopVpns(sz, 0);
    WidenedAt(m0, o0, t0, m, own, tbl, croot, proot, 0);
    forall v: nat | v < Pages(sz) ensures UserOnly(m, tbl, proot, v) && Trans(m, tbl, croot, v) == None {
      WidenedAt(m0, o0, t0, m, own, tbl, croot, proot, v);
      assert UserOnly(m0, t0, proot, v);
      TopVpns(sz, v);
    }
  }

  /** Page by page, the child sees what the parent saw. */
  lemma ForkCopied(m0: Mem, o0: map<nat, Role>, t0: map<Pos, nat>, m1: Mem, o1: map<nat, Role>, t1: map<Pos, nat>,
    m2: Mem, o2: map<nat, Role>, t2: map<Pos, nat>, proot: nat, croot: nat, sz: nat)
    requires Private(m0, o0, t0) && Widened(m0, o0, t0, m1, o1, t1, croot) && OnlyTop(m1, t1, croot) && proot != croot
             && sz <= TRAPFRAME
    requires forall v: nat :: v < Pages(sz) ==> UserOnly(m0, t0, proot, v)
    requires forall v: nat {:trigger PageCopied(m1, t1, proot, m2, t2, croot, v)} ::
               v < Pages(sz) ==> PageCopied(m1, t1, proot, m2, t2, croot, v)
    requires forall v: nat {:trigger Trans(m2, t2, croot, v)} ::
               v >= Pages(sz) ==> Trans(m2, t2, croot, v) == Trans(m1, t1, croot, v)
    ensures SeesCopy(m0, t0, proot, m2, t2, croot, sz)
  {
    forall a: nat | a < VASPACE
      ensures UserAt(m2, t2, croot, a) == if a < PGSIZE * Pages(sz) then UserAt(m0, t0, proot, a) else None
    {
      ByteCopied(m0, o0, t0, m1, o1, t1, m2, t2, proot, croot, sz, a);
    }
  }

  lemma ByteCopied(m0: Mem, o0: map<nat, Role>, t0: map<Pos, nat>, m1: Mem, o1: map<nat, Role>, t1: map<Pos, nat>,
    m2: Mem, t2: map<Pos, nat>, proot: nat, croot: nat, sz: nat, a: nat)
    requires Private(m0, o0, t0) && Widened(m0, o0, t0, m1, o1, t1, croot) && OnlyTop(m1, t1, croot) && proot != croot
             && sz <= TRAPFRAME && a < VASPACE
    requires Vpn(a) < Pages(sz) ==> UserOnly(m0, t0, proot, Vpn(a)) && PageCopied(m1, t1, proot, m2, t2, croot, Vpn(a))
    requires Vpn(a) >= Pages(sz) ==> Trans(m2, t2, croot, Vpn(a)) == Trans(m1, t1, croot, Vpn(a))
    ensures UserAt(m2, t2, croot, a) == if a < PGSIZE * Pages(sz) then UserAt(m0, t0, proot, a) else None
  {
    hide Trans, Private, Widened, Vpn, Pages;
    PageOfByte(a, sz);
    if Vpn(a) < Pages(sz) {
      CopiedFrom(m0, o0, t0, proot, m1, o1, t1, m2, t2, croot, Vpn(a));
      UserOwned(m0, o0, t0, proot, Vpn(a));
    }
  }

  lemma PageOfByte(a: nat, sz: nat)
    requires a < VASPACE
    ensures Vpn(a) < Pages(sz) <==> a < PGSIZE * Pages(sz)
  {
  }

  lemma WidenedPage(m: Mem, own: map<nat, Role>, tbl: map<Pos, nat>, m': Mem, own': map<nat, Role>, tbl': map<Pos, nat>,
      croot: nat, f: nat)
    requires Widened(m, own, tbl, m', own', tbl', croot) && f in own && !own[f].Tab?
    ensures f in m && f in m' && m'[f] == m[f] && f in own' && own'[f] == own[f]
  {
  }

  /** Writing a kernel page afterwards changes nothing that users see. */
  lemma SameCopy(m0: Mem, t0: map<Pos, nat>, proot: nat, m: Mem, own: map<nat, Role>, m': Mem, tbl: map<Pos, nat>,
      croot: nat, sz: nat, f: nat)
    requires SeesCopy(m0, t0, proot, m, tbl, croot, sz) && Private(m, own, tbl) && f in own && !own[f].User?
    requires m'.Keys == m.Keys && (forall g :: g in m && g != f ==> m'[g] == m[g])
             && forall r, v :: Trans(m', tbl, r, v) == Trans(m, tbl, r, v)
    ensures SeesCopy(m0, t0, proot, m', tbl, croot, sz)
  {
    hide Private, Trans, Pages;
    forall a: nat | a < VASPACE ensures UserAt(m', tbl, croot, a) == UserAt(m, tbl, croot, a) {
      UserOwned(m, own, tbl, croot, Vpn(a));
    }
  }

  /** The page `f`, taken meanwhile, is written. */
  lemma WidenedLate(m0: Mem, o0: map<nat, Role>, t0: map<Pos, nat>, m: Mem, own: map<nat, Role>, tbl: map<Pos, nat>,
      m': Mem, croot: nat, f: nat)
    requires Widened(m0, o0, t0, m, own, tbl, croot) && f !in o0 && m'.Keys == m.Keys
             && (forall g :: g in m && g != f ==> m'[g] == m[g])
    requires forall r, v :: Trans(m', tbl, r, v) == Trans(m, tbl, r, v)
    ensures Widened(m0, o0, t0, m', own, tbl, croot)
  {
  }

  /** What others see stays when an address space grows. */
  lemma WidenedFlat(m: Mem, own: map<nat, Role>, tbl: map<Pos, nat>, m': Mem, own': map<nat, Role>, tbl': map<Pos, nat>,
      croot: nat, r: nat)
    requires Private(m, own, tbl) && Widened(m, own, tbl, m', own', tbl', croot) && r != croot
    ensures Flat(m', tbl', r) == Flat(m, tbl, r)
  {
    hide Private, Trans;
    forall a: nat | a < VASPACE ensures UserAt(m', tbl', r, a) == UserAt(m, tbl, r, a) {
      UserOwned(m, own, tbl, r, Vpn(a));
      WidenedAt(m, own, tbl, m', own', tbl', croot, r, Vpn(a));
      var t := Trans(m, tbl, r, Vpn(a));
      if t.Some? && IsU(t.value) { assert m'[PtePa(t.value)] == m[PtePa(t.value)]; }
    }
  }

  const PHYSTOP := 0x8800_0000

  lemma UpAligned(a: nat)
    ensures RoundUp(a) % PGSIZE == 0 && RoundUp(a) >= a && RoundUp(a) == PGSIZE * Pages(a)
  {
  }

  lemma NextPage(pa: nat)
    requires pa % PGSIZE == 0
    ensures forall f: nat :: f % PGSIZE == 0 && f > pa ==> f >= pa + PGSIZE
  {
  }

  lemma PagesMono(a: nat, b: nat)
    requires a <= b
    ensures Pages(a) <= Pages(b)
  {
  }

  lemma PagesEnd(k: nat, sz: nat)
    requires sz <= PGSIZE * k && k <= Pages(sz)
    ensures k == Pages(sz)
  {
  }

  /** Before pmm_init every page counts as in use; after it, none. */
  lemma AllUsed(image: Mem)
    requires forall f :: f in image ==> f % PGSIZE == 0 && 0 < f < MAXPA
    ensures var own := map f | f in image ::
              Boot; FramesOk(image, own, []) && ListOk(image, 0, []) && TreeOk(image, own, map[])
                    && Private(image, own, map[])
  {
  }

  lemma AllFree(m: Mem, free: seq<nat>)
    requires FramesOk(m, map[], free)
    ensures forall f :: f in m <==> f in free
  {
  }

  /** Page `v` is a page of zeros with all rights. */
  ghost predicate ZeroPage(m: Mem, tbl: map<Pos, nat>, root: nat, v: nat) {
    var t := Trans(m, tbl, root, v);
    AllRights(m, tbl, root, v) && PtePa(t.value) in m && m[PtePa(t.value)] == Zeros(PGSIZE)
  }

  lemma ZeroStays(m: Mem, own: map<nat, Role>, tbl: map<Pos, nat>, m': Mem, own': map<nat, Role>, tbl': map<Pos, nat>,
      root: nat, v: nat)
    requires ZeroPage(m, tbl, root, v) && Private(m, own, tbl) && Widened(m, own, tbl, m', own', tbl', root)
    requires Trans(m', tbl', root, v) == Trans(m, tbl, root, v)
    ensures ZeroPage(m', tbl', root, v)
  {
    hide Trans, Private;
    UserOwned(m, own, tbl, root, v);
  }

  /** Pages `lo..hi` have come to read as zero; all else reads as before. */
  ghost predicate SeesZeros(m: Mem, tbl: map<Pos, nat>, m': Mem, tbl': map<Pos, nat>, root: nat, lo: nat, hi: nat) {
    forall a: nat {:trigger UserAt(m', tbl', root, a)} :: a < VASPACE ==>
      UserAt(m', tbl', root, a) == if lo <= Vpn(a) < hi then Some(0) else UserAt(m, tbl, root, a)
  }

  lemma ZerosSeen(m: Mem, own: map<nat, Role>, tbl: map<Pos, nat>, m': Mem, own': map<nat, Role>, tbl': map<Pos, nat>,
      root: nat, lo: nat, hi: nat)
    requires Private(m, own, tbl) && Widened(m, own, tbl, m', own', tbl', root)
    requires forall v: nat {:trigger ZeroPage(m', tbl', root, v)} :: lo <= v < hi ==> ZeroPage(m', tbl', root, v)
    requires forall v: nat {:trigger Trans(m', tbl', root, v)} ::
               !(lo <= v < hi) ==> Trans(m', tbl', root, v) == Trans(m, tbl, root, v)
    ensures SeesZeros(m, tbl, m', tbl', root, lo, hi)
  {
    hide Private, Trans, Vpn;
    forall a: nat | a < VASPACE
      ensures UserAt(m', tbl', root, a) == if lo <= Vpn(a) < hi then Some(0) else UserAt(m, tbl, root, a)
    {
      if lo <= Vpn(a) < hi {
        assert ZeroPage(m', tbl', root, Vpn(a));
      } else {
        UserOwned(m, own, tbl, root, Vpn(a));
        var t := Trans(m, tbl, root, Vpn(a));
        if t.Some? && IsU(t.value) { assert m'[PtePa(t.value)] == m[PtePa(t.value)]; }
      }
    }
  }
}
