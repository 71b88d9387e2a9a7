/** The memory of all processes together (kernel/proc.c): what alloc_process, user_init, fork, sbrk and
    wait_process take and give back keeps processes apart, over any run of them. */
module ProcMem {
  import opened Bytes
  import opened UserMem
  import opened Vm

  /** The memory fields of struct proc. */
  datatype Space = Space(kstack: nat, root: nat, tf: nat, sz: nat)

  /** Its pages are its own; the top two are mapped, every page below its size is, and whatever else
      is mapped is a user page below those, with all rights or, as a stack, all but execution. */
  ghost predicate SpaceOk(m: Mem, own: map<nat, Role>, tbl: map<Pos, nat>, s: Space, trampoline: nat) {
    && Pos(s.root, 2, 0) in tbl && s.kstack in own && own[s.kstack] == Kstack && s.tf in own
    && own[s.tf] == Trapframe(s.root)
    && TopIs(m, tbl, s.root, trampoline, s.tf) && Full(m, tbl, s.root, Pages(s.sz)) && RestUser(m, tbl, s.root)
  }

  ghost predicate RestUser(m: Mem, tbl: map<Pos, nat>, root: nat) {
    forall v: nat {:trigger Rest(m, tbl, root, v)} {:trigger Trans(m, tbl, root, v)} ::
      v != Vpn(TRAMPOLINE) && v != Vpn(TRAPFRAME) ==> Rest(m, tbl, root, v)
  }

  ghost predicate Rest(m: Mem, tbl: map<Pos, nat>, root: nat, v: nat) {
    Trans(m, tbl, root, v).Some? ==>
      v < Vpn(TRAPFRAME) && IsU(Trans(m, tbl, root, v).value) && Perm(m, tbl, root, v) in {0x1F, 0x17}
  }

  /** No two processes share a kernel stack or a page table. */
  ghost predicate SlotsOk(m: Mem, own: map<nat, Role>, tbl: map<Pos, nat>, slots: map<nat, Space>, trampoline: nat) {
    && (forall i {:trigger slots[i]} :: i in slots ==> SpaceOk(m, own, tbl, slots[i], trampoline))
    && (forall i, j {:trigger slots[i], slots[j]} :: i in slots && j in slots && i != j ==>
          slots[i].kstack != slots[j].kstack && slots[i].root != slots[j].root)
  }

  /** What others do to the memory leaves a process alone. */
  lemma SpaceStays(m: Mem, own: map<nat, Role>, tbl: map<Pos, nat>, m': Mem, own': map<nat, Role>, tbl': map<Pos, nat>,
      root: nat, s: Space, trampoline: nat)
    requires SpaceOk(m, own, tbl, s, trampoline) && Widened(m, own, tbl, m', own', tbl', root) && s.root != root
    ensures SpaceOk(m', own', tbl', s, trampoline)
  {
    hide Trans, Vpn, Pages;
    forall v: nat
      ensures Trans(m', tbl', s.root, v) == Trans(m, tbl, s.root, v)
    {
      WidenedAt(m, own, tbl, m', own', tbl', root, s.root, v);
    }
    forall v: nat | v != Vpn(TRAMPOLINE) && v != Vpn(TRAPFRAME)
      ensures Rest(m', tbl', s.root, v)
    {
      assert Rest(m, tbl, s.root, v);
    }
  }

  /** The heap cannot have reached the trapframe, for it would not fit into memory. */
  lemma SizeBound(m: Mem, own: map<nat, Role>, tbl: map<Pos, nat>, free: seq<nat>, s: Space, trampoline: nat)
    requires FramesOk(m, own, free) && Private(m, own, tbl) && SpaceOk(m, own, tbl, s, trampoline)
             && |m.Keys| < Vpn(TRAPFRAME)
    ensures s.sz <= TRAPFRAME && UsersBelow(m, tbl, s.root, s.sz)
  {
    hide FramesOk, Private, Trans;
    FullBound(m, own, tbl, free, s.root, Pages(s.sz));
  }

  /** Two processes never share a page: their user pages are different pages, and none of them is free,
      a page table, a kernel stack or a trapframe. */
  lemma Apart(m: Mem, own: map<nat, Role>, tbl: map<Pos, nat>, free: seq<nat>, slots: map<nat, Space>, trampoline: nat,
      i: nat, j: nat, v: nat, w: nat)
    requires FramesOk(m, own, free) && TreeOk(m, own, tbl) && Private(m, own, tbl)
             && SlotsOk(m, own, tbl, slots, trampoline) && i in slots && j in slots
    requires var t := Trans(m, tbl, slots[i].root, v); t.Some? && IsU(t.value)
    ensures var pa := PtePa(Trans(m, tbl, slots[i].root, v).value);
            && pa in m && pa !in free && pa !in tbl.Values && pa != slots[j].kstack && pa != slots[j].tf
            && (Trans(m, tbl, slots[j].root, w).Some? && PtePa(Trans(m, tbl, slots[j].root, w).value) == pa ==>
                i == j && v == w)
    ensures i != j ==> slots[i].tf != slots[j].tf && slots[i].kstack != slots[j].kstack
  {
    hide Trans, Full, RestUser, TopIs, TreeOk;
    UserOwned(m, own, tbl, slots[i].root, v);
    assert SpaceOk(m, own, tbl, slots[i], trampoline) && SpaceOk(m, own, tbl, slots[j], trampoline);
    TablesOwned(m, own, tbl);
    if Trans(m, tbl, slots[j].root, w).Some? {
      assert MapOk(m, own, slots[j].root, w, Trans(m, tbl, slots[j].root, w).value);
    }
  }

  /** What a process sees, what it may do there, and its trapframe have stayed as they were. */
  ghost predicate Kept(m: Mem, tbl: map<Pos, nat>, m': Mem, tbl': map<Pos, nat>, s: Space) {
    Flat(m', tbl', s.root) == Flat(m, tbl, s.root) && SameFrame(m, m', s.tf) && SamePerms(m, tbl, m', tbl', s.root)
  }

  ghost predicate SamePerms(m: Mem, tbl: map<Pos, nat>, m': Mem, tbl': map<Pos, nat>, root: nat) {
    forall v: nat {:trigger Perm(m', tbl', root, v)} :: Perm(m', tbl', root, v) == Perm(m, tbl, root, v)
  }

  lemma PermsTrans(m: Mem, tbl: map<Pos, nat>, m1: Mem, tbl1: map<Pos, nat>, m2: Mem, tbl2: map<Pos, nat>, root: nat)
    requires SamePerms(m, tbl, m1, tbl1, root) && SamePerms(m1, tbl1, m2, tbl2, root)
    ensures SamePerms(m, tbl, m2, tbl2, root)
  {
    hide Perm;
  }

  lemma PermsStay(m: Mem, tbl: map<Pos, nat>, m': Mem, tbl': map<Pos, nat>, root: nat)
    requires forall v {:trigger Trans(m', tbl', root, v)} :: Trans(m', tbl', root, v) == Trans(m, tbl, root, v)
    ensures SamePerms(m, tbl, m', tbl', root)
  {
    hide Trans;
  }

  /** An address space with `code` pages of all rights, `stack` pages that are not executable, and the
      trampoline (V, R and X) and trapframe (V, R and W) of the kernel at the top of 2^38 bytes. */
  ghost predicate PermsAre(m: Mem, tbl: map<Pos, nat>, root: nat, code: nat, stack: nat) {
    forall v: nat {:trigger Perm(m, tbl, root, v)} ::
      Perm(m, tbl, root, v) == if v < code then 0x1F else if v < code + stack then 0x17
                               else if v == 0x3FF_FFFF then 0xB else if v == 0x3FF_FFFE then 0x7 else 0
  }

  ghost predicate SameFrame(m: Mem, m': Mem, f: nat) {
    f in m && f in m' && m'[f] == m[f]
  }

  /** All processes but those in `skip` are as they were. */
  ghost predicate AllKept(m: Mem, tbl: map<Pos, nat>, slots: map<nat, Space>, m': Mem, tbl': map<Pos, nat>,
      slots': map<nat, Space>, skip: set<nat>) {
    forall i {:trigger slots[i]} {:trigger slots'[i]} ::
      i in slots && i !in skip ==> i in slots' && slots'[i] == slots[i] && Kept(m, tbl, m', tbl', slots[i])
  }

  lemma KeptTrans(m: Mem, tbl: map<Pos, nat>, slots: map<nat, Space>, m1: Mem, tbl1: map<Pos, nat>,
      slots1: map<nat, Space>, m2: Mem, tbl2: map<Pos, nat>, slots2: map<nat, Space>, a: set<nat>, b: set<nat>)
    requires AllKept(m, tbl, slots, m1, tbl1, slots1, a) && AllKept(m1, tbl1, slots1, m2, tbl2, slots2, b)
    ensures AllKept(m, tbl, slots, m2, tbl2, slots2, a + b)
  {
    hide Flat;
    forall i | i in slots && i !in a + b
      ensures i in slots2 && slots2[i] == slots[i] && Kept(m, tbl, m2, tbl2, slots[i])
    {
      assert i in slots1 && slots1[i] == slots[i];
      PermsTrans(m, tbl, m1, tbl1, m2, tbl2, slots[i].root);
    }
  }

  /** An address space that no process has, or that of the one in slot `skip`, has gained pages. */
  lemma SlotsStay(m: Mem, own: map<nat, Role>, tbl: map<Pos, nat>, m': Mem, own': map<nat, Role>, tbl': map<Pos, nat>,
      slots: map<nat, Space>, trampoline: nat, root: nat, skip: set<nat>)
    requires SlotsOk(m, own, tbl, slots, trampoline) && Private(m, own, tbl)
             && Widened(m, own, tbl, m', own', tbl', root)
    requires forall i {:trigger slots[i]} :: i in slots && i !in skip ==> slots[i].root != root
    ensures forall i {:trigger slots[i]} :: i in slots && i !in skip ==> SpaceOk(m', own', tbl', slots[i], trampoline)
    ensures AllKept(m, tbl, slots, m', tbl', slots, skip) && m'.Keys == m.Keys
  {
    hide SpaceOk, Private, Flat;
    forall i | i in slots && i !in skip
      ensures SpaceOk(m', own', tbl', slots[i], trampoline) && Kept(m, tbl, m', tbl', slots[i])
    {
      SpaceStays(m, own, tbl, m', own', tbl', root, slots[i], trampoline);
      WidenedFlat(m, own, tbl, m', own', tbl', root, slots[i].root);
      WidenedPerms(m, own, tbl, m', own', tbl', root, slots[i].root);
      SpaceOwns(m, own, tbl, slots[i], trampoline);
      WidenedPage(m, own, tbl, m', own', tbl', root, slots[i].tf);
    }
  }

  lemma PermsAreStill(m: Mem, tbl: map<Pos, nat>, m': Mem, tbl': map<Pos, nat>, root: nat, code: nat, stack: nat)
    requires SamePerms(m, tbl, m', tbl', root) && PermsAre(m, tbl, root, code, stack)
    ensures PermsAre(m', tbl', root, code, stack)
  {
    hide Perm;
  }

  lemma WidenedPerms(m: Mem, own: map<nat, Role>, tbl: map<Pos, nat>, m': Mem, own': map<nat, Role>,
      tbl': map<Pos, nat>, croot: nat, root: nat)
    requires Widened(m, own, tbl, m', own', tbl', croot) && root != croot
    ensures SamePerms(m, tbl, m', tbl', root)
  {
    PermsStay(m, tbl, m', tbl', root);
  }

  lemma SpaceOwns(m: Mem, own: map<nat, Role>, tbl: map<Pos, nat>, s: Space, trampoline: nat)
    requires SpaceOk(m, own, tbl, s, trampoline)
    ensures Pos(s.root, 2, 0) in tbl && s.tf in own && own[s.tf] == Trapframe(s.root) && s.kstack in own
            && own[s.kstack] == Kstack
  {
  }

  lemma SpaceFull(m: Mem, own: map<nat, Role>, tbl: map<Pos, nat>, s: Space, trampoline: nat)
    requires SpaceOk(m, own, tbl, s, trampoline)
    ensures Pos(s.root, 2, 0) in tbl && s.tf in own && own[s.tf] == Trapframe(s.root)
            && Full(m, tbl, s.root, Pages(s.sz))
  {
  }

  /** A new root and a new kernel stack are nobody's. */
  lemma SlotsFresh(m: Mem, own: map<nat, Role>, tbl: map<Pos, nat>, slots: map<nat, Space>, trampoline: nat, root: nat)
    requires SlotsOk(m, own, tbl, slots, trampoline) && TreeOk(m, own, tbl) && root !in own
    ensures forall i {:trigger slots[i]} :: i in slots ==> slots[i].root != root && slots[i].kstack in own
  {
    hide SpaceOk, TreeOk;
    forall i | i in slots ensures slots[i].root != root && slots[i].kstack in own {
      SpaceOwns(m, own, tbl, slots[i], trampoline);
      RootIn(m, own, tbl, slots[i].root);
    }
  }

  /** A new address space has come to be, and perhaps a process in slot `c` has it. */
  lemma SlotJoins(m: Mem, own: map<nat, Role>, tbl: map<Pos, nat>, m': Mem, own': map<nat, Role>, tbl': map<Pos, nat>,
      slots: map<nat, Space>, trampoline: nat, c: nat, s: Space)
    requires SlotsOk(m, own, tbl, slots, trampoline) && Private(m, own, tbl) && TreeOk(m, own, tbl) && s.root !in own
             && c !in slots
    requires Widened(m, own, tbl, m', own', tbl', s.root)
    ensures SlotsOk(m', own', tbl', slots, trampoline) && AllKept(m, tbl, slots, m', tbl', slots, {})
            && m'.Keys == m.Keys
    ensures SpaceOk(m', own', tbl', s, trampoline) && s.kstack !in own ==>
              SlotsOk(m', own', tbl', slots[c := s], trampoline) && AllKept(m, tbl, slots, m', tbl', slots[c := s], {})
  {
    hide SpaceOk, Private, Widened, Flat, TreeOk, Kept;
    SlotsFresh(m, own, tbl, slots, trampoline, s.root);
    SlotsStay(m, own, tbl, m', own', tbl', slots, trampoline, s.root, {});
  }

  /** What the child maps: the same pages as its parent below the size. */
  lemma ChildOk(m: Mem, own: map<nat, Role>, tbl: map<Pos, nat>, s: Space, m': Mem, own': map<nat, Role>,
      tbl': map<Pos, nat>, c: Space, trampoline: nat)
    requires SpaceOk(m, own, tbl, s, trampoline) && s.sz <= TRAPFRAME && c.sz == s.sz
    requires TopIs(m', tbl', c.root, trampoline, c.tf) && ChildMap(m, tbl, s.root, m', tbl', c.root, s.sz)
    requires Pos(c.root, 2, 0) in tbl' && c.kstack in own' && own'[c.kstack] == Kstack && c.tf in own'
             && own'[c.tf] == Trapframe(c.root)
    ensures SpaceOk(m', own', tbl', c, trampoline) && PermsAre(m', tbl', c.root, Pages(c.sz), 0)
  {
    hide Trans, Vpn, Pages;
    TopVpns(s.sz, Vpn(TRAMPOLINE));
    TopVpns(s.sz, Vpn(TRAPFRAME));
    TopPerms(m', tbl', c.root, trampoline, c.tf);
    forall v: nat | v < Pages(c.sz) ensures AllRights(m', tbl', c.root, v) {
      assert Trans(m, tbl, s.root, v).Some?;
      assert Trans(m', tbl', c.root, v) == Trans(m', tbl', c.root, v);
    }
  }

  lemma TopPerms(m: Mem, tbl: map<Pos, nat>, root: nat, trampoline: nat, tf: nat)
    requires TopIs(m, tbl, root, trampoline, tf)
    ensures Vpn(TRAMPOLINE) == 0x3FF_FFFF && Vpn(TRAPFRAME) == 0x3FF_FFFE
    ensures Perm(m, tbl, root, Vpn(TRAMPOLINE)) == 0xB && Perm(m, tbl, root, Vpn(TRAPFRAME)) == 0x7
  {
    hide Trans;
  }

  /** After sbrk an address space is as it should be again, unless the size went below zero. */
  lemma GrownOk(m: Mem, own: map<nat, Role>, tbl: map<Pos, nat>, m': Mem, own': map<nat, Role>, tbl': map<Pos, nat>,
      s: Space, s': Space, trampoline: nat)
    requires SpaceOk(m, own, tbl, s, trampoline) && Widened(m, own, tbl, m', own', tbl', s.root)
             && HeapOnly(m, tbl, m', tbl', s.root, Pages(s.sz))
    requires s' == s.(sz := s'.sz) && Full(m', tbl', s.root, Pages(s'.sz))
    ensures SpaceOk(m', own', tbl', s', trampoline)
  {
    hide Trans, Pages;
    assert Vpn(TRAPFRAME) < Vpn(TRAMPOLINE);
    forall v: nat | v != Vpn(TRAMPOLINE) && v != Vpn(TRAPFRAME) ensures Rest(m', tbl', s.root, v) {
      assert Rest(m, tbl, s.root, v);
      assert Trans(m', tbl', s.root, v) == Trans(m, tbl, s.root, v) || AllRights(m', tbl', s.root, v);
    }
    assert Trans(m', tbl', s.root, Vpn(TRAMPOLINE)) == Trans(m, tbl, s.root, Vpn(TRAMPOLINE));
    assert Trans(m', tbl', s.root, Vpn(TRAPFRAME)) == Trans(m, tbl, s.root, Vpn(TRAPFRAME));
  }

  /** The part of user memory below `top`. */
  ghost function Below(u: map<nat, byte>, top: nat): map<nat, byte> {
    map a | a in u && a < top :: u[a]
  }

  lemma CopyView(m: Mem, tbl: map<Pos, nat>, proot: nat, m': Mem, tbl': map<Pos, nat>, croot: nat, sz: nat)
    requires SeesCopy(m, tbl, proot, m', tbl', croot, sz)
    ensures Flat(m', tbl', croot) == Below(Flat(m, tbl, proot), PGSIZE * Pages(sz))
  {
    hide UserAt, Pages;
    var u, w := Flat(m', tbl', croot), Below(Flat(m, tbl, proot), PGSIZE * Pages(sz));
    forall a: nat ensures (a in u <==> a in w) && (a in u ==> u[a] == w[a]) {
      if a < VASPACE {
        assert UserAt(m', tbl', croot, a) == if a < PGSIZE * Pages(sz) then UserAt(m, tbl, proot, a) else None;
      }
    }
    assert u.Keys == w.Keys;
  }

  lemma TooBig(m: Mem, own: map<nat, Role>, tbl: map<Pos, nat>, free: seq<nat>, slots: map<nat, Space>, trampoline: nat,
      i: nat)
    requires FramesOk(m, own, free) && Private(m, own, tbl) && |m.Keys| < Vpn(TRAPFRAME) && i in slots
             && slots[i].sz > TRAPFRAME
    ensures !SlotsOk(m, own, tbl, slots, trampoline)
  {
    hide FramesOk, Private, SpaceOk;
    if SlotsOk(m, own, tbl, slots, trampoline) { SizeBound(m, own, tbl, free, slots[i], trampoline); }
  }

  /** No translation changes and the process keeps its pages. */
  lemma SpaceSame(m: Mem, own: map<nat, Role>, tbl: map<Pos, nat>, m': Mem, own': map<nat, Role>, s: Space,
      trampoline: nat)
    requires SpaceOk(m, own, tbl, s, trampoline)
             && forall r, v {:trigger Trans(m', tbl, r, v)} :: Trans(m', tbl, r, v) == Trans(m, tbl, r, v)
    requires s.kstack in own' && own'[s.kstack] == own[s.kstack] && s.tf in own' && own'[s.tf] == own[s.tf]
    ensures SpaceOk(m', own', tbl, s, trampoline)
  {
    hide Trans, Vpn, Pages;
    forall v: nat | v != Vpn(TRAMPOLINE) && v != Vpn(TRAPFRAME)
      ensures Rest(m', tbl, s.root, v)
    {
      assert Rest(m, tbl, s.root, v);
    }
  }

  /** wait_process frees a kernel stack. */
  lemma SlotsDrop(m: Mem, own: map<nat, Role>, tbl: map<Pos, nat>, m': Mem, slots: map<nat, Space>, trampoline: nat,
      c: nat)
    requires SlotsOk(m, own, tbl, slots, trampoline) && Private(m, own, tbl) && c in slots && m'.Keys == m.Keys
             && forall g :: g in own ==> g in m
    requires forall f :: f in m && f != slots[c].kstack ==> m'[f] == m[f]
    requires forall r, v {:trigger Trans(m', tbl, r, v)} :: Trans(m', tbl, r, v) == Trans(m, tbl, r, v)
    ensures SlotsOk(m', own - {slots[c].kstack}, tbl, slots - {c}, trampoline)
            && AllKept(m, tbl, slots, m', tbl, slots - {c}, {c})
  {
    hide SpaceOk, Private, Flat, Trans;
    SpaceOwns(m, own, tbl, slots[c], trampoline);
    forall i | i in slots && i != c
      ensures SpaceOk(m', own - {slots[c].kstack}, tbl, slots[i], trampoline) && Kept(m, tbl, m', tbl, slots[i])
    {
      SpaceOwns(m, own, tbl, slots[i], trampoline);
      SpaceSame(m, own, tbl, m', own - {slots[c].kstack}, slots[i], trampoline);
      OtherFlat(m, m', own, tbl, slots[i].root, slots[c].kstack);
      PermsStay(m, tbl, m', tbl, slots[i].root);
    }
  }

  /** The last byte of an address space is not for users. */
  lemma LastUnused(m: Mem, own: map<nat, Role>, tbl: map<Pos, nat>, s: Space, trampoline: nat)
    requires SpaceOk(m, own, tbl, s, trampoline)
    ensures UserAt(m, tbl, s.root, VASPACE - 1).None?
  {
    hide Trans;
    assert Vpn(VASPACE - 1) > Vpn(TRAMPOLINE) > Vpn(TRAPFRAME);
    assert Rest(m, tbl, s.root, Vpn(VASPACE - 1));
  }

  /** A process's user memory is written. */
  lemma SlotsWrite(m: Mem, own: map<nat, Role>, tbl: map<Pos, nat>, m': Mem, slots: map<nat, Space>, trampoline: nat,
      i: nat)
    requires SlotsOk(m, own, tbl, slots, trampoline) && i in slots && Elsewhere(m, m', own, tbl, slots[i].root)
             && forall g :: g in own ==> g in m
    ensures SlotsOk(m', own, tbl, slots, trampoline) && AllKept(m, tbl, slots, m', tbl, slots, {i})
    ensures slots[i].tf in m && m'[slots[i].tf] == m[slots[i].tf] && SamePerms(m, tbl, m', tbl, slots[i].root)
  {
    hide SpaceOk, Flat, Trans, SamePerms;
    forall j | j in slots
      ensures SpaceOk(m', own, tbl, slots[j], trampoline) && slots[j].tf in m && m'[slots[j].tf] == m[slots[j].tf]
      ensures SamePerms(m, tbl, m', tbl, slots[j].root)
    {
      PermsStay(m, tbl, m', tbl, slots[j].root);
      SpaceOwns(m, own, tbl, slots[j], trampoline);
      SpaceSame(m, own, tbl, m', own, slots[j], trampoline);
    }
  }

  /** Page `v` is a user page with the contents `page`. */
  ghost predicate PageIs(m: Mem, tbl: map<Pos, nat>, root: nat, v: nat, page: seq<byte>) {
    var t := Trans(m, tbl, root, v);
    t.Some? && IsU(t.value) && PtePa(t.value) in m && m[PtePa(t.value)] == page
  }

  lemma PageIsStays(m: Mem, own: map<nat, Role>, tbl: map<Pos, nat>, m': Mem, own': map<nat, Role>, tbl': map<Pos, nat>,
      root: nat, v: nat, page: seq<byte>)
    requires PageIs(m, tbl, root, v, page) && Private(m, own, tbl) && Widened(m, own, tbl, m', own', tbl', root)
    requires Trans(m', tbl', root, v) == Trans(m, tbl, root, v)
    ensures PageIs(m', tbl', root, v, page)
  {
    hide Trans, Private;
    UserOwned(m, own, tbl, root, v);
  }

  /** Page `k` of a program, padded with zeros; a page of zeros from its end on. */
  function Chunk(prog: seq<byte>, k: nat): (page: seq<byte>)
    ensures |page| == PGSIZE
  {
    var part := Part(prog, k);
    part + Zeros(PGSIZE - |part|)
  }

  function Part(prog: seq<byte>, k: nat): (part: seq<byte>)
    ensures |part| <= PGSIZE
  {
    if PGSIZE * k >= |prog| then [] else if PGSIZE * k + PGSIZE > |prog| then prog[PGSIZE * k..]
    else prog[PGSIZE * k..PGSIZE * k + PGSIZE]
  }

  /** What the first process sees: its program and a stack page of zeros. */
  function Image(prog: seq<byte>): map<nat, byte> {
    map a: nat | a < PGSIZE * (Pages(|prog|) + 1) :: if a < |prog| then prog[a] else 0
  }

  lemma ChunkAt(prog: seq<byte>, a: nat)
    ensures Chunk(prog, a / PGSIZE)[a % PGSIZE] == if a < |prog| then prog[a] else 0
  {
  }

  /** The first `k` pages of an address space hold the program. */
  ghost predicate Loaded(m: Mem, tbl: map<Pos, nat>, root: nat, prog: seq<byte>, k: nat) {
    forall v: nat {:trigger PageIs(m, tbl, root, v, Chunk(prog, v))} {:trigger Trans(m, tbl, root, v)} ::
      v < k ==> PageIs(m, tbl, root, v, Chunk(prog, v))
                && Perm(m, tbl, root, v) == if v < Pages(|prog|) then 0x1F else 0x17
  }

  lemma LoadedMore(m: Mem, own: map<nat, Role>, tbl: map<Pos, nat>, m': Mem, own': map<nat, Role>, tbl': map<Pos, nat>,
      root: nat, prog: seq<byte>, k: nat)
    requires Loaded(m, tbl, root, prog, k) && Private(m, own, tbl) && Widened(m, own, tbl, m', own', tbl', root)
    requires forall v: nat {:trigger Trans(m', tbl', root, v)} ::
               v != k ==> Trans(m', tbl', root, v) == Trans(m, tbl, root, v)
    requires PageIs(m', tbl', root, k, Chunk(prog, k))
    requires Perm(m', tbl', root, k) == if k < Pages(|prog|) then 0x1F else 0x17
    ensures Loaded(m', tbl', root, prog, k + 1)
  {
    hide Trans, Private, Widened, PageIs, Chunk;
    forall v: nat | v < k + 1
      ensures PageIs(m', tbl', root, v, Chunk(prog, v))
              && Perm(m', tbl', root, v) == if v < Pages(|prog|) then 0x1F else 0x17
    {
      if v < k {
        assert Trans(m', tbl', root, v) == Trans(m, tbl, root, v);
        assert PageIs(m, tbl, root, v, Chunk(prog, v));
        PageIsStays(m, own, tbl, m', own', tbl', root, v, Chunk(prog, v));
      }
    }
  }

  lemma LoadedFull(m: Mem, tbl: map<Pos, nat>, root: nat, prog: seq<byte>, k: nat)
    requires Loaded(m, tbl, root, prog, k)
    ensures Full(m, tbl, root, k)
  {
    hide Trans, Chunk;
  }

  /** Such an address space, with nothing else for the user, shows the program and its stack. */
  lemma LoadedImage(m: Mem, tbl: map<Pos, nat>, root: nat, prog: seq<byte>)
    requires Loaded(m, tbl, root, prog, Pages(|prog|) + 1) && PGSIZE * (Pages(|prog|) + 1) <= VASPACE
    requires forall v: nat {:trigger Trans(m, tbl, root, v)} ::
               v > Pages(|prog|) && Trans(m, tbl, root, v).Some? ==> !IsU(Trans(m, tbl, root, v).value)
    ensures Flat(m, tbl, root) == Image(prog)
  {
    hide Trans, Pages, Chunk;
    var u, n := Flat(m, tbl, root), Pages(|prog|) + 1;
    forall a: nat ensures (a in u <==> a in Image(prog)) && (a in u ==> u[a] == Image(prog)[a]) {
      if a < VASPACE {
        PageNumber(a, n);
        ChunkAt(prog, a);
        if Vpn(a) < n { assert PageIs(m, tbl, root, Vpn(a), Chunk(prog, Vpn(a))); }
      }
    }
    assert u.Keys == Image(prog).Keys;
  }

  lemma PageNumber(a: nat, n: nat)
    requires a < VASPACE
    ensures Vpn(a) == a / PGSIZE && (Vpn(a) < n <==> a < PGSIZE * n)
  {
  }

  const RWXU := PTE_R + PTE_W + PTE_X + PTE_U
  const RWU := PTE_R + PTE_W + PTE_U
  const EPC := 24     // offsetof(struct trapframe, epc)
  const SP := 48      // offsetof(struct trapframe, sp)

  /** The first address space is as it should be. */
  lemma InitOk(m: Mem, tbl: map<Pos, nat>, m': Mem, own': map<nat, Role>, tbl': map<Pos, nat>, s: Space,
      trampoline: nat, prog: seq<byte>)
    requires OnlyTop(m, tbl, s.root) && TopIs(m, tbl, s.root, trampoline, s.tf)
             && Loaded(m', tbl', s.root, prog, Pages(|prog|) + 1)
    requires Pages(|prog|) < Vpn(TRAPFRAME) && s.sz == PGSIZE * (Pages(|prog|) + 1)
    requires forall v: nat {:trigger Trans(m', tbl', s.root, v)} ::
               v > Pages(|prog|) ==> Trans(m', tbl', s.root, v) == Trans(m, tbl, s.root, v)
    requires Pos(s.root, 2, 0) in tbl' && s.kstack in own' && own'[s.kstack] == Kstack && s.tf in own'
             && own'[s.tf] == Trapframe(s.root)
    ensures SpaceOk(m', own', tbl', s, trampoline) && Flat(m', tbl', s.root) == Image(prog)
            && PermsAre(m', tbl', s.root, Pages(|prog|), 1)
  {
    hide Trans, Chunk, Flat, Image;
    var n := Pages(|prog|) + 1;
    assert Pages(s.sz) == n && Vpn(TRAPFRAME) < Vpn(TRAMPOLINE) && PGSIZE * n <= VASPACE;
    LoadedFull(m', tbl', s.root, prog, n);
    forall v: nat | v != Vpn(TRAMPOLINE) && v != Vpn(TRAPFRAME) ensures Rest(m', tbl', s.root, v) {
      if v < n {
        assert Full(m', tbl', s.root, n) && Trans(m', tbl', s.root, v).Some?;
      } else {
        assert Trans(m', tbl', s.root, v) == Trans(m, tbl, s.root, v);
      }
    }
    InitPerms(m, tbl, m', tbl', s.root, trampoline, s.tf, prog);
    LoadedImage(m', tbl', s.root, prog);
  }

  lemma InitPerms(m: Mem, tbl: map<Pos, nat>, m': Mem, tbl': map<Pos, nat>, root: nat, trampoline: nat, tf: nat,
      prog: seq<byte>)
    requires OnlyTop(m, tbl, root) && TopIs(m, tbl, root, trampoline, tf)
             && Loaded(m', tbl', root, prog, Pages(|prog|) + 1) && Pages(|prog|) < Vpn(TRAPFRAME)
    requires forall v: nat {:trigger Trans(m', tbl', root, v)} ::
               v > Pages(|prog|) ==> Trans(m', tbl', root, v) == Trans(m, tbl, root, v)
    ensures PermsAre(m', tbl', root, Pages(|prog|), 1)
  {
    hide Trans, Chunk, Pages;
    TopPerms(m, tbl, root, trampoline, tf);
    forall v: nat
      ensures Perm(m', tbl', root, v) == if v < Pages(|prog|) then 0x1F else if v < Pages(|prog|) + 1 then 0x17
                                         else if v == 0x3FF_FFFF then 0xB else if v == 0x3FF_FFFE then 0x7 else 0
    {
      if v <= Pages(|prog|) {
        assert PageIs(m', tbl', root, v, Chunk(prog, v)) || Trans(m', tbl', root, v) == Trans(m', tbl', root, v);
      } else {
        assert Trans(m', tbl', root, v) == Trans(m, tbl, root, v);
      }
    }
  }

  /** A write to a trapframe shows nowhere in user memory. */
  lemma ImageStays(m: Mem, own: map<nat, Role>, tbl: map<Pos, nat>, m': Mem, s: Space, trampoline: nat)
    requires SpaceOk(m, own, tbl, s, trampoline) && Private(m, own, tbl) && m'.Keys == m.Keys
             && forall f :: f in m && f != s.tf ==> m'[f] == m[f]
    requires forall r, v {:trigger Trans(m', tbl, r, v)} :: Trans(m', tbl, r, v) == Trans(m, tbl, r, v)
    ensures SpaceOk(m', own, tbl, s, trampoline) && Flat(m', tbl, s.root) == Flat(m, tbl, s.root)
            && SamePerms(m, tbl, m', tbl, s.root)
  {
    hide SpaceOk, Private, Flat, Trans;
    PermsStay(m, tbl, m', tbl, s.root);
    SpaceOwns(m, own, tbl, s, trampoline);
    SpaceSame(m, own, tbl, m', own, s, trampoline);
    OtherFlat(m, m', own, tbl, s.root, s.tf);
  }

  lemma EntrySet(page: Page, sp: nat)
    requires sp < U64
    ensures var p: seq<byte> := Put(Put(page, EPC, 8, 0), SP, 8, sp); Get(p, EPC, 8) == 0 && Get(p, SP, 8) == sp
  {
    assert Pow256(8) == U64;
    GetPutSame(page, EPC, 8, 0);
    var q := Put(page, EPC, 8, 0);
    GetPutSame(q, SP, 8, sp);
    GetOverlayOther(q, SP, Enc(sp, 8), EPC, 8);
  }

  lemma WidenedKeys(m: Mem, own: map<nat, Role>, tbl: map<Pos, nat>, m': Mem, own': map<nat, Role>, tbl': map<Pos, nat>,
      root: nat)
    requires Widened(m, own, tbl, m', own', tbl', root)
    ensures m'.Keys == m.Keys
  {
  }

  lemma LoadedNone(m: Mem, tbl: map<Pos, nat>, root: nat, prog: seq<byte>)
    ensures Loaded(m, tbl, root, prog, 0)
  {
  }

  /** The pages of the program, and that the one after them is empty. */
  lemma NextPart(prog: seq<byte>, i: nat)
    requires i <= Pages(|prog|)
    ensures i < Pages(|prog|) ==> PGSIZE * i < |prog|
    ensures i == Pages(|prog|) ==> Part(prog, i) == []
    ensures Chunk(prog, i) == Part(prog, i) + Zeros(PGSIZE - |Part(prog, i)|)
  {
  }

  /** What a run of the system can do to the memory of processes: start the first one, fork, sbrk, wait
      and store. */
  datatype Call =
    | Start(c: nat, prog: seq<byte>) | Forks(p: nat, c: nat) | Grows(p: nat, n: int) | Waits(c: nat)
    | Stores(p: nat, va: nat, src: seq<byte>)

  /** A new process takes a slot that is not used; a size does not go below zero. */
  predicate Can(slots: map<nat, Space>, e: Call) {
    match e
    case Start(c, _) => c !in slots
    case Forks(p, c) => p in slots && c !in slots
    case Grows(p, n) => p in slots && -0x8000_0000 <= n < 0x8000_0000 && 0 <= slots[p].sz + n
    case Waits(c) => c in slots
    case Stores(p, _, _) => p in slots
  }

  /** So many free pages are enough for the call: five for a process, one for each page and the tables
      that the pages can need. */
  function Need(slots: map<nat, Space>, e: Call): int
    requires Can(slots, e)
  {
    match e
    case Start(_, prog) => 5 + Pages(|prog|) + 1 + Tables(0, Pages(|prog|) + 1)
    case Forks(p, _) => 5 + Pages(slots[p].sz) + Tables(0, Pages(slots[p].sz))
    case Grows(p, n) => if n <= 0 then 0 else Cost(Pages(slots[p].sz), Pages(slots[p].sz + n))
    case Waits(_) => 0
    case Stores(_, _, _) => 0
  }

  /** In numbers, below two megabytes: five pages for a process, one for each 4096 bytes that it has or
      gains, one for the stack of the first, and two tables. */
  lemma NeedSmall(slots: map<nat, Space>, e: Call)
    requires Can(slots, e)
    ensures e.Start? && |e.prog| <= 0x1F_F000 ==> Need(slots, e) == 8 + (|e.prog| + 4095) / 4096
    ensures e.Forks? && 0 < slots[e.p].sz <= 0x20_0000 ==> Need(slots, e) == 7 + (slots[e.p].sz + 4095) / 4096
    ensures e.Grows? && slots[e.p].sz + e.n <= 0x20_0000
            && (slots[e.p].sz + e.n + 4095) / 4096 > (slots[e.p].sz + 4095) / 4096
            ==> Need(slots, e) == 2 + (slots[e.p].sz + e.n + 4095) / 4096 - (slots[e.p].sz + 4095) / 4096
    ensures e.Waits? || e.Stores? || (e.Grows? && e.n <= 0) ==> Need(slots, e) == 0
  {
    hide Tables;
    match e
    case Start(_, prog) => TwoTables(0, Pages(|prog|) + 1);
    case Forks(p, _) => TwoTables(0, Pages(slots[p].sz));
    case Grows(p, n) => TwoTables(Pages(slots[p].sz), Pages(slots[p].sz + n));
    case _ =>
  }

  lemma TwoTables(lo: nat, k: nat)
    ensures lo < k <= 512 ==> Tables(lo, k) == 2
  {
  }

  /** Whose memory the call is about. */
  function Who(e: Call): set<nat> {
    match e
    case Start(_, _) => {}
    case Forks(_, _) => {}
    case Grows(p, _) => {p}
    case Waits(c) => {c}
    case Stores(p, _, _) => {p}
  }

  function Touched(es: seq<Call>): set<nat> {
    if es == [] then {} else Touched(es[..|es| - 1]) + Who(es[|es| - 1])
  }

  /** Who exists after a call that returned `r`, and after a run of calls. */
  function After(live: set<nat>, e: Call, r: bool): set<nat> {
    match e
    case Start(c, _) => if r then live + {c} else live
    case Forks(p, c) => if r && p in live then live + {c} else live
    case Grows(_, _) => live
    case Waits(c) => live - {c}
    case Stores(_, _, _) => live
  }

  function Live(live: set<nat>, es: seq<Call>, rs: seq<bool>): set<nat>
    requires |rs| == |es|
  {
    if es == [] then live else After(Live(live, es[..|es| - 1], rs[..|es| - 1]), es[|es| - 1], rs[|es| - 1])
  }

  /** All of memory and the processes, at one time. */
  datatype State = State(m: Mem, head: nat, own: map<nat, Role>, tbl: map<Pos, nat>, free: seq<nat>,
      slots: map<nat, Space>)

  ghost predicate StateOk(s: State, trampoline: nat) {
    && FramesOk(s.m, s.own, s.free) && ListOk(s.m, s.head, s.free) && TreeOk(s.m, s.own, s.tbl)
    && Private(s.m, s.own, s.tbl)
    && SlotsOk(s.m, s.own, s.tbl, s.slots, trampoline)
  }

  /** The first process sees its program from 0 on and a page of stack above it, which alone is not
      executable, and starts at 0. */
  ghost predicate Started(s: State, c: nat, prog: seq<byte>) {
    && c in s.slots && Flat(s.m, s.tbl, s.slots[c].root) == Image(prog) && s.slots[c].sz == PGSIZE * (Pages(|prog|) + 1)
    && s.slots[c].tf in s.m && Get(s.m[s.slots[c].tf], 24, 8) == 0 && Get(s.m[s.slots[c].tf], 48, 8) == s.slots[c].sz
    && PermsAre(s.m, s.tbl, s.slots[c].root, Pages(|prog|), 1)
  }

  /** The child sees what its parent sees below its size, in pages with all rights; its trapframe
      differs in a0 alone. */
  ghost predicate Forked(s: State, p: nat, c: nat) {
    && p in s.slots && c in s.slots && s.slots[c].sz == s.slots[p].sz
    && Flat(s.m, s.tbl, s.slots[c].root) == Below(Flat(s.m, s.tbl, s.slots[p].root), PGSIZE * Pages(s.slots[p].sz))
    && s.slots[c].tf in s.m && s.slots[p].tf in s.m && s.m[s.slots[c].tf] == Put(s.m[s.slots[p].tf], 112, 8, 0)
    && PermsAre(s.m, s.tbl, s.slots[c].root, Pages(s.slots[p].sz), 0)
  }

  /** The new pages of the heap read as zero and have all rights. If there are not enough, the size
      stays, and what was below it; a smaller size changes nothing that the process sees. */
  ghost predicate Grew(s: State, p: nat, n: int, r: bool, s': State) {
    && p in s.slots && p in s'.slots && s'.slots == s.slots[p := s.slots[p].(sz := s'.slots[p].sz)]
    && s'.slots[p].sz == (if r then (s.slots[p].sz + n) % U64 else s.slots[p].sz) && SameFrame(s.m, s'.m, s.slots[p].tf)
    && var lo, root := Pages(s.slots[p].sz), s.slots[p].root;
       if n <= 0 then r && Flat(s'.m, s'.tbl, root) == Flat(s.m, s.tbl, root)
                      && SamePerms(s.m, s.tbl, s'.m, s'.tbl, root)
       else if r then SeesZeros(s.m, s.tbl, s'.m, s'.tbl, root, lo, Pages(s'.slots[p].sz))
                      && HeapGrown(s.m, s.tbl, s'.m, s'.tbl, root, lo, Pages(s'.slots[p].sz))
       else HeapOnly(s.m, s.tbl, s'.m, s'.tbl, root, lo)
            && Below(Flat(s'.m, s'.tbl, root), PGSIZE * lo) == Below(Flat(s.m, s.tbl, root), PGSIZE * lo)
  }

  /** The bytes are stored up to the first that is not accessible; the result says if there is one. */
  ghost predicate Wrote(s: State, p: nat, va: nat, src: seq<byte>, r: bool, s': State) {
    && p in s.slots && s'.slots == s.slots && s'.free == s.free && SameFrame(s.m, s'.m, s.slots[p].tf)
    && var u := Flat(s.m, s.tbl, s.slots[p].root);
       Flat(s'.m, s'.tbl, s.slots[p].root) == Stored(u, va % VASPACE, src) && r == Mapped(u, va % VASPACE, |src|)
       && SamePerms(s.m, s.tbl, s'.m, s'.tbl, s.slots[p].root)
  }

  /** What a call that returned `r` has done. It fails only for want of pages. */
  ghost predicate Effect(s: State, e: Call, r: bool, s': State)
    requires Can(s.slots, e)
  {
    && s'.m.Keys == s.m.Keys && s'.slots.Keys == After(s.slots.Keys, e, r)
    && AllKept(s.m, s.tbl, s.slots, s'.m, s'.tbl, s'.slots, Who(e))
    && (|s.free| >= Need(s.slots, e) ==> r || e.Stores?)
    && match e
       case Start(c, prog) => r ==> Started(s', c, prog)
       case Forks(p, c) => r ==> Forked(s', p, c)
       case Grows(p, n) => Grew(s, p, n, r, s')
       case Waits(c) => r && s'.slots == s.slots - {c} && s'.free == [s.slots[c].kstack] + s.free
       case Stores(p, va, src) => Wrote(s, p, va, src, r, s')
  }

  /** The first process, byte by byte: its program, then zeros up to a page above the program's last. */
  lemma StartedSees(s: State, c: nat, prog: seq<byte>, a: nat)
    requires Started(s, c, prog)
    ensures c in s.slots && s.slots[c].sz == (|prog| + 4095) / 4096 * 4096 + 4096
    ensures var u := Flat(s.m, s.tbl, s.slots[c].root);
            && (a in u <==> a < s.slots[c].sz) && (a in u ==> u[a] == if a < |prog| then prog[a] else 0)
  {
    hide Flat, PermsAre;
  }

  /** The child, byte by byte: the parent's memory up to the end of the page in which its size lies. */
  lemma ForkedSees(s: State, p: nat, c: nat, a: nat)
    requires Forked(s, p, c)
    ensures p in s.slots && c in s.slots && s.slots[c].sz == s.slots[p].sz
    ensures var u, w := Flat(s.m, s.tbl, s.slots[p].root), Flat(s.m, s.tbl, s.slots[c].root);
            && (a in w <==> a in u && a < (s.slots[p].sz + 4095) / 4096 * 4096) && (a in w ==> w[a] == u[a])
            && (a < s.slots[p].sz ==> (a in w <==> a in u))
  {
    hide Flat, PermsAre;
  }

  /** A heap that has grown, byte by byte: zeros from the end of the page in which the old size lies to
      the end of the page in which the new one does, and elsewhere what was there. */
  lemma GrewSees(s: State, p: nat, n: int, s': State, a: nat)
    requires Grew(s, p, n, true, s') && 0 < n < 0x8000_0000 && s.slots[p].sz + n < U64 && a < VASPACE
    ensures p in s.slots && p in s'.slots && s'.slots[p].sz == s.slots[p].sz + n
    ensures var lo, hi := (s.slots[p].sz + 4095) / 4096 * 4096, (s.slots[p].sz + n + 4095) / 4096 * 4096;
            var u, w := Flat(s.m, s.tbl, s.slots[p].root), Flat(s'.m, s'.tbl, s.slots[p].root);
            if lo <= a < hi then a in w && w[a] == 0 && Perm(s'.m, s'.tbl, s.slots[p].root, a / 4096) == 0x1F
            else (a in w <==> a in u) && (a in w ==> w[a] == u[a])
  {
    hide UserAt, Trans, HeapOnly;
    var root := s.slots[p].root;
    FlatAt(s.m, s.tbl, root, a);
    FlatAt(s'.m, s'.tbl, root, a);
    PageNumber(a, Pages(s.slots[p].sz));
    PageNumber(a, Pages(s'.slots[p].sz));
    assert UserAt(s'.m, s'.tbl, root, a) == UserAt(s'.m, s'.tbl, root, a);
  }

  /** One step of a run; a call that cannot be made is passed over. */
  ghost predicate Moved(s: State, e: Call, r: bool, s': State) {
    if Can(s.slots, e) then Effect(s, e, r, s') else !r && s' == s
  }

  /** The states `tr` that the first `|rs|` calls go through, with their results. */
  ghost predicate IsRun(tr: seq<State>, es: seq<Call>, rs: seq<bool>, trampoline: nat) {
    && |tr| == |rs| + 1 && |rs| <= |es| && (forall k {:trigger tr[k]} :: 0 <= k < |tr| ==> StateOk(tr[k], trampoline))
    && (forall k {:trigger rs[k]} :: 0 <= k < |rs| ==> Moved(tr[k], es[k], rs[k], tr[k + 1]))
  }

  /** The next call has run out of pages: fewer are free than it needs. */
  ghost predicate OutOfPages(s: State, e: Call) {
    Can(s.slots, e) && |s.free| < Need(s.slots, e)
  }

  lemma RunMore(tr: seq<State>, es: seq<Call>, rs: seq<bool>, trampoline: nat, r: bool, s: State)
    requires IsRun(tr, es, rs, trampoline) && |rs| < |es| && StateOk(s, trampoline) && Moved(tr[|rs|], es[|rs|], r, s)
    ensures IsRun(tr + [s], es, rs + [r], trampoline)
  {
    hide StateOk, Moved;
    var tr', rs' := tr + [s], rs + [r];
    forall k | 0 <= k < |rs'| ensures Moved(tr'[k], es[k], rs'[k], tr'[k + 1]) {
      if k < |rs| { assert rs'[k] == rs[k]; }
    }
  }

  /** In any run, whoever is not the object of a call has the same memory and trapframe at the end,
      and exactly those exist that were made and not waited for. */
  lemma {:induction false} RunKept(tr: seq<State>, es: seq<Call>, rs: seq<bool>, trampoline: nat, k: nat)
    requires IsRun(tr, es, rs, trampoline) && k <= |rs|
    ensures tr[k].m.Keys == tr[0].m.Keys && tr[k].slots.Keys == Live(tr[0].slots.Keys, es[..k], rs[..k])
    ensures AllKept(tr[0].m, tr[0].tbl, tr[0].slots, tr[k].m, tr[k].tbl, tr[k].slots, Touched(es[..k]))
    decreases k
  {
    hide StateOk, AllKept, Moved, After, Who;
    if k == 0 {
      OkFrames(tr[0], trampoline);
      KeptSame(tr[0].m, tr[0].own, tr[0].tbl, tr[0].slots, trampoline);
    } else {
      RunKept(tr, es, rs, trampoline, k - 1);
      var a, b, e, r := tr[k - 1], tr[k], es[k - 1], rs[k - 1];
      assert Moved(a, e, r, b);
      MovedKept(a, e, r, b, trampoline);
      TouchedMore(es, k - 1);
      LiveMore(tr[0].slots.Keys, es, rs[..k - 1], r);
      assert rs[..k] == rs[..k - 1] + [r];
      KeptTrans(tr[0].m, tr[0].tbl, tr[0].slots, a.m, a.tbl, a.slots, b.m, b.tbl, b.slots, Touched(es[..k - 1]),
                Who(e));
    }
  }

  lemma MovedKept(s: State, e: Call, r: bool, s': State, trampoline: nat)
    requires StateOk(s, trampoline) && Moved(s, e, r, s')
    ensures AllKept(s.m, s.tbl, s.slots, s'.m, s'.tbl, s'.slots, Who(e))
    ensures s'.m.Keys == s.m.Keys && s'.slots.Keys == After(s.slots.Keys, e, r)
  {
    hide StateOk, AllKept, Started, Forked, Grew, Wrote, Need, Can;
    if !Can(s.slots, e) {
      OkFrames(s, trampoline);
      KeptSame(s.m, s.own, s.tbl, s.slots, trampoline);
      KeptSkip(s.m, s.tbl, s.slots, s.m, s.tbl, s.slots, {}, Who(e));
      assert {} + Who(e) == Who(e);
      AfterSkip(s.slots, e);
    }
  }

  lemma AfterSkip(slots: map<nat, Space>, e: Call)
    requires !Can(slots, e)
    ensures After(slots.Keys, e, false) == slots.Keys
  {
  }

  lemma OkFrames(s: State, trampoline: nat)
    requires StateOk(s, trampoline)
    ensures SlotsOk(s.m, s.own, s.tbl, s.slots, trampoline) && forall g :: g in s.own ==> g in s.m
  {
    hide TreeOk, ListOk, Private, SlotsOk;
    OwnIn(s.m, s.own, s.free);
  }

  lemma LiveMore(live: set<nat>, es: seq<Call>, rs: seq<bool>, r: bool)
    requires |rs| < |es|
    ensures Live(live, es[..|rs| + 1], rs + [r]) == After(Live(live, es[..|rs|], rs), es[|rs|], r)
  {
    assert es[..|rs| + 1][..|rs|] == es[..|rs|] && (rs + [r])[..|rs|] == rs;
  }

  lemma TouchedMore(es: seq<Call>, k: nat)
    requires k < |es|
    ensures Touched(es[..k + 1]) == Touched(es[..k]) + Who(es[k])
  {
    assert es[..k + 1][..k] == es[..k];
  }

  lemma KeptSkip(m: Mem, tbl: map<Pos, nat>, slots: map<nat, Space>, m1: Mem, tbl1: map<Pos, nat>,
      slots1: map<nat, Space>, a: set<nat>, b: set<nat>)
    requires AllKept(m, tbl, slots, m1, tbl1, slots1, a)
    ensures AllKept(m, tbl, slots, m1, tbl1, slots1, a + b)
  {
    hide Flat;
  }

  lemma KeptSame(m: Mem, own: map<nat, Role>, tbl: map<Pos, nat>, slots: map<nat, Space>, trampoline: nat)
    requires SlotsOk(m, own, tbl, slots, trampoline) && forall g :: g in own ==> g in m
    ensures AllKept(m, tbl, slots, m, tbl, slots, {})
  {
    hide SpaceOk, Flat;
    forall i | i in slots ensures slots[i].tf in m { SpaceOwns(m, own, tbl, slots[i], trampoline); }
  }

  /** What was below the size stays while the heap grows. */
  lemma HeapBelow(m: Mem, own: map<nat, Role>, tbl: map<Pos, nat>, m': Mem, own': map<nat, Role>, tbl': map<Pos, nat>,
      root: nat, lo: nat)
    requires Private(m, own, tbl) && Widened(m, own, tbl, m', own', tbl', root) && HeapOnly(m, tbl, m', tbl', root, lo)
    ensures Below(Flat(m', tbl', root), PGSIZE * lo) == Below(Flat(m, tbl, root), PGSIZE * lo)
  {
    hide Private, Trans, Vpn;
    var u, w := Flat(m, tbl, root), Flat(m', tbl', root);
    forall a: nat | a < PGSIZE * lo ensures (a in u <==> a in w) && (a in u ==> u[a] == w[a]) {
      if a < VASPACE {
        PageNumber(a, lo);
        UserOwned(m, own, tbl, root, Vpn(a));
        assert Trans(m', tbl', root, Vpn(a)) == Trans(m, tbl, root, Vpn(a));
        var t := Trans(m, tbl, root, Vpn(a));
        if t.Some? && IsU(t.value) { assert m'[PtePa(t.value)] == m[PtePa(t.value)]; }
      }
    }
    assert Below(u, PGSIZE * lo).Keys == Below(w, PGSIZE * lo).Keys;
  }

  /** sbrk is done: the caller's heap has grown, and all is in order unless the size went below zero. */
  lemma GrewOk(s: State, i: nat, n: int, r: bool, s': State, trampoline: nat)
    requires StateOk(s, trampoline) && |s.m.Keys| < Vpn(TRAPFRAME) && i in s.slots && FramesOk(s'.m, s'.own, s'.free)
             && Private(s'.m, s'.own, s'.tbl)
    requires s'.slots == s.slots[i := s.slots[i].(sz := if r then (s.slots[i].sz + n) % U64 else s.slots[i].sz)]
    requires Widened(s.m, s.own, s.tbl, s'.m, s'.own, s'.tbl, s.slots[i].root)
    requires HeapOnly(s.m, s.tbl, s'.m, s'.tbl, s.slots[i].root, Pages(s.slots[i].sz)) && s.slots[i].sz <= TRAPFRAME
             && -0x8000_0000 <= n
    requires if n <= 0 then r && s'.m == s.m && s'.tbl == s.tbl
             else var lo, hi := Pages(s.slots[i].sz), Pages(s'.slots[i].sz);
                  r ==> SeesZeros(s.m, s.tbl, s'.m, s'.tbl, s.slots[i].root, lo, hi)
                        && HeapGrown(s.m, s.tbl, s'.m, s'.tbl, s.slots[i].root, lo, hi)
    requires 0 <= s.slots[i].sz + n ==> Full(s'.m, s'.tbl, s.slots[i].root, Pages(s'.slots[i].sz))
    ensures Grew(s, i, n, r, s') && AllKept(s.m, s.tbl, s.slots, s'.m, s'.tbl, s'.slots, {i})
    ensures s'.m.Keys == s.m.Keys && s'.slots.Keys == s.slots.Keys
    ensures SlotsOk(s'.m, s'.own, s'.tbl, s'.slots, trampoline) <==> 0 <= s.slots[i].sz + n
  {
    hide FramesOk, ListOk, TreeOk, Private, Widened, Seen, Flat, SeesZeros, Pages, Vpn, Full, SpaceOk, HeapOnly, Below,
         HeapGrown;
    var p := s.slots[i];
    assert SpaceOk(s.m, s.own, s.tbl, p, trampoline);
    SpaceFull(s.m, s.own, s.tbl, p, trampoline);
    WidenedKeys(s.m, s.own, s.tbl, s'.m, s'.own, s'.tbl, p.root);
    SlotsStay(s.m, s.own, s.tbl, s'.m, s'.own, s'.tbl, s.slots, trampoline, p.root, {i});
    WidenedPage(s.m, s.own, s.tbl, s'.m, s'.own, s'.tbl, p.root, p.tf);
    HeapBelow(s.m, s.own, s.tbl, s'.m, s'.own, s'.tbl, p.root, Pages(p.sz));
    if 0 <= p.sz + n {
      GrownOk(s.m, s.own, s.tbl, s'.m, s'.own, s'.tbl, p, s'.slots[i], trampoline);
    } else {
      TooBig(s'.m, s'.own, s'.tbl, s'.free, s'.slots, trampoline, i);
    }
  }

  /** Each call has the effect that a step of a run is to have. */
  lemma StartEffect(s: State, c: nat, prog: seq<byte>, r: bool, s': State)
    requires Can(s.slots, Start(c, prog)) && s'.m.Keys == s.m.Keys
             && s'.slots.Keys == s.slots.Keys + if r then {c} else {}
    requires AllKept(s.m, s.tbl, s.slots, s'.m, s'.tbl, s'.slots, {}) && (r ==> Started(s', c, prog))
    requires |s.free| >= Need(s.slots, Start(c, prog)) ==> r
    ensures Effect(s, Start(c, prog), r, s')
  {
    hide AllKept, Started, Need;
    assert s.slots.Keys + {} == s.slots.Keys;
  }

  lemma ForkEffect(s: State, p: nat, c: nat, r: bool, s': State)
    requires Can(s.slots, Forks(p, c)) && s'.m.Keys == s.m.Keys && s'.slots.Keys == s.slots.Keys + if r then {c} else {}
    requires AllKept(s.m, s.tbl, s.slots, s'.m, s'.tbl, s'.slots, {}) && (r ==> Forked(s', p, c))
    requires |s.free| >= Need(s.slots, Forks(p, c)) ==> r
    ensures Effect(s, Forks(p, c), r, s')
  {
    hide AllKept, Forked, Need;
    assert s.slots.Keys + {} == s.slots.Keys;
  }

  lemma GrowEffect(s: State, p: nat, n: int, r: bool, s': State)
    requires Can(s.slots, Grows(p, n)) && s'.m.Keys == s.m.Keys
             && AllKept(s.m, s.tbl, s.slots, s'.m, s'.tbl, s'.slots, {p})
    requires Grew(s, p, n, r, s') && s'.slots.Keys == s.slots.Keys && (|s.free| >= Need(s.slots, Grows(p, n)) ==> r)
    ensures Effect(s, Grows(p, n), r, s')
  {
    hide AllKept, Grew, Need;
  }

  lemma StoreEffect(s: State, p: nat, va: nat, src: seq<byte>, r: bool, s': State)
    requires Can(s.slots, Stores(p, va, src)) && s'.m.Keys == s.m.Keys
             && AllKept(s.m, s.tbl, s.slots, s'.m, s'.tbl, s'.slots, {p})
    requires Wrote(s, p, va, src, r, s') && s'.slots == s.slots
    ensures Effect(s, Stores(p, va, src), r, s')
  {
    hide AllKept, Wrote;
  }

  lemma WaitEffect(s: State, c: nat, s': State)
    requires Can(s.slots, Waits(c)) && s'.m.Keys == s.m.Keys && s'.slots == s.slots - {c}
             && s'.free == [s.slots[c].kstack] + s.free
    requires AllKept(s.m, s.tbl, s.slots, s'.m, s'.tbl, s'.slots, {c})
    ensures Effect(s, Waits(c), true, s')
  {
    hide AllKept;
    assert s'.slots.Keys == s.slots.Keys - {c};
  }

  class Procs {
    const trampoline: nat
    const memory: Memory
    var slots: map<nat, Space>      // the processes that exist, zombies included

    ghost predicate Valid()
      reads this, memory
    {
      && memory.Valid() && trampoline % PGSIZE == 0 && trampoline < MAXPA && trampoline !in memory.mem
      && |memory.mem.Keys| < Vpn(TRAPFRAME)
      && SlotsOk(memory.mem, memory.own, memory.tbl, slots, trampoline)
    }

    ghost function Now(): State
      reads this, memory
    {
      State(memory.mem, memory.freelist, memory.own, memory.tbl, memory.free, slots)
    }

    /** No process yet, and no page table of one. */
    constructor (memory: Memory, trampoline: nat)
      requires memory.Valid() && trampoline % PGSIZE == 0 && trampoline < MAXPA && trampoline !in memory.mem
               && |memory.mem.Keys| < Vpn(TRAPFRAME)
      ensures Valid() && slots == map[] && this.memory == memory && this.trampoline == trampoline
    {
      this.memory, this.trampoline, slots := memory, trampoline, map[];
    }

    /** fork: the new process in slot `c` is as its parent, in pages of its own, and a0 zero. */
    method Fork(p: nat, c: nat) returns (ok: bool, r: bool)
      requires Valid() && p in slots && c !in slots
      modifies this, memory
      ensures |old(memory.free)| >= Need(old(slots), Forks(p, c)) ==> ok && r
      ensures ok ==> Valid() && memory.mem.Keys == old(memory.mem).Keys
      ensures ok ==> AllKept(old(memory.mem), old(memory.tbl), old(slots), memory.mem, memory.tbl, slots, {})
      ensures ok ==> slots.Keys == old(slots).Keys + if r then {c} else {}
      ensures ok && r ==> Forked(Now(), p, c)
    {
      hide SpaceOk, FramesOk, ListOk, TreeOk, Private, Widened, Flat, SeesCopy, Pages, Tables, ChildMap, TopIs, Vpn,
           Put, Below;
      ghost var m0, o0, t0, s0 := memory.mem, memory.own, memory.tbl, slots;
      assert SpaceOk(m0, o0, t0, slots[p], trampoline);
      SizeBound(m0, o0, t0, memory.free, slots[p], trampoline);
      SpaceOwns(m0, o0, t0, slots[p], trampoline);
      var kstack, croot, ctf;
      ok, r, kstack, croot, ctf := memory.Fork(slots[p].root, slots[p].sz, slots[p].tf, trampoline);
      if !ok { return; }
      SlotJoins(m0, o0, t0, memory.mem, memory.own, memory.tbl, slots, trampoline, c,
                Space(kstack, croot, ctf, slots[p].sz));
      if !r { return; }
      ChildOk(m0, o0, t0, slots[p], memory.mem, memory.own, memory.tbl, Space(kstack, croot, ctf, slots[p].sz),
              trampoline);
      CopyView(m0, t0, slots[p].root, memory.mem, memory.tbl, croot, slots[p].sz);
      slots := slots[c := Space(kstack, croot, ctf, slots[p].sz)];
    }

    /** sbrk: the new pages read as zero, and nobody else notices. All is as it should be afterwards
        exactly if the size has not gone below zero, which the source does not check. */
    method Sbrk(i: nat, n: int) returns (ok: bool, r: bool)
      requires Valid() && i in slots && -0x8000_0000 <= n < 0x8000_0000
      modifies this, memory
      ensures n <= 0 || |old(memory.free)| >= Cost(Pages(old(slots)[i].sz), Pages(old(slots)[i].sz + n)) ==> ok && r
      ensures ok ==> (Valid() <==> 0 <= old(slots)[i].sz + n) && memory.Valid()
                     && memory.mem.Keys == old(memory.mem).Keys
      ensures ok ==> AllKept(old(memory.mem), old(memory.tbl), old(slots), memory.mem, memory.tbl, slots, {i})
      ensures ok ==> Grew(old(Now()), i, n, r, Now()) && slots.Keys == old(slots).Keys
    {
      hide FramesOk, ListOk, TreeOk, Private, Widened, Seen, Flat, SeesZeros, Tables, Pages, Vpn, Trans, Full, SpaceOk,
           HeapOnly, Below, HeapGrown;
      ghost var m0, o0, t0 := memory.mem, memory.own, memory.tbl;
      var s := slots[i];
      assert SpaceOk(m0, o0, t0, s, trampoline);
      SizeBound(m0, o0, t0, memory.free, s, trampoline);
      SpaceFull(m0, o0, t0, s, trampoline);
      var sz;
      ok, r, sz := memory.Sbrk(s.root, s.sz, n);
      if !ok { return; }
      slots := slots[i := s.(sz := sz)];
      GrewOk(old(Now()), i, n, r, Now(), trampoline);
    }

    /** What wait_process does to the memory: the kernel stack of the child in slot `c` is free. */
    method Collect(c: nat)
      requires Valid() && c in slots
      modifies this, memory
      ensures Valid() && slots == old(slots) - {c} && memory.free == [old(slots)[c].kstack] + old(memory.free)
              && memory.mem.Keys == old(memory.mem).Keys
      ensures AllKept(old(memory.mem), old(memory.tbl), old(slots), memory.mem, memory.tbl, slots, {c})
    {
      hide SpaceOk, FramesOk, ListOk, TreeOk, Private, Flat, Trans, Vpn;
      assert SpaceOk(memory.mem, memory.own, memory.tbl, slots[c], trampoline);
      SpaceOwns(memory.mem, memory.own, memory.tbl, slots[c], trampoline);
      OwnIn(memory.mem, memory.own, memory.free);
      memory.FreePage(slots[c].kstack);
      SlotsDrop(old(memory.mem), old(memory.own), memory.tbl, memory.mem, slots, trampoline, c);
      slots := slots - {c};
    }

    /** Bytes go to a process's memory, from itself or by copyout. */
    method Store(i: nat, va: nat, src: seq<byte>) returns (r: bool)
      requires i in slots && Valid()
      modifies memory
      ensures Wrote(old(Now()), i, va, src, r, Now())
      ensures AllKept(old(memory.mem), old(memory.tbl), slots, memory.mem, memory.tbl, slots, {i})
      ensures Valid() && memory.mem.Keys == old(memory.mem).Keys
    {
      hide SpaceOk, FramesOk, ListOk, TreeOk, Private, Flat, Trans, Vpn, Mapped, Stored;
      assert SpaceOk(memory.mem, memory.own, memory.tbl, slots[i], trampoline);
      SpaceOwns(memory.mem, memory.own, memory.tbl, slots[i], trampoline);
      OwnIn(memory.mem, memory.own, memory.free);
      LastUnused(memory.mem, memory.own, memory.tbl, slots[i], trampoline);
      r := memory.Copyout(slots[i].root, va, src);
      SlotsWrite(old(memory.mem), memory.own, memory.tbl, memory.mem, slots, trampoline, i);
    }

    /** The copy loop of user_init, into a page of zeros. */
    method FillPage(pa: nat, part: seq<byte>)
      requires memory.Valid() && pa in memory.own && memory.own[pa].User? && pa in memory.mem
               && memory.mem[pa] == Zeros(PGSIZE) && |part| <= PGSIZE
      modifies memory`mem
      ensures memory.Valid() && memory.mem.Keys == old(memory.mem).Keys
              && memory.mem[pa] == part + Zeros(PGSIZE - |part|)
      ensures forall f :: f in memory.mem && f != pa ==> memory.mem[f] == old(memory.mem)[f]
      ensures forall r, v {:trigger Trans(memory.mem, memory.tbl, r, v)} ::
                Trans(memory.mem, memory.tbl, r, v) == Trans(old(memory.mem), memory.tbl, r, v)
    {
      hide TreeOk, FramesOk, ListOk, Private, Get, Trans;
      var page, j := memory.mem[pa], 0;
      while j < |part|
        invariant 0 <= j <= |part| && |page| == PGSIZE && page == part[..j] + Zeros(PGSIZE - j)
      {
        page := page[j := part[j]];
        j := j + 1;
      }
      assert part[..j] == part;
      NoTable(memory.mem, memory.own, memory.tbl, pa);
      PageWrite(memory.mem, memory.freelist, memory.own, memory.free, memory.tbl, pa, page);
      memory.mem := memory.mem[pa := page];
      PrivateKeep(old(memory.mem), memory.own, memory.tbl, memory.mem, memory.own, memory.tbl);
    }

    /** A new page with the bytes `part`, then zeros, mapped at `va`, as user_init does it. */
    method LoadPage(root: nat, va: nat, part: seq<byte>, perm: nat) returns (ok: bool, r: bool)
      requires memory.Valid() && memory.IsRoot(root) && |part| <= PGSIZE && perm < 1024 && IsU(perm) && !IsV(perm)
      modifies memory
      ensures ok ==> && memory.Valid() && memory.IsRoot(root)
                     && Widened(old(memory.mem), old(memory.own), old(memory.tbl), memory.mem, memory.own, memory.tbl,
                                root)
      ensures ok && r ==> PageIs(memory.mem, memory.tbl, root, Vpn(va), part + Zeros(PGSIZE - |part|))
                          && Perm(memory.mem, memory.tbl, root, Vpn(va)) == perm + 1
      ensures ok && r ==> forall v: nat {:trigger Trans(memory.mem, memory.tbl, root, v)} :: v != Vpn(va) ==>
                            Trans(memory.mem, memory.tbl, root, v) == Trans(old(memory.mem), old(memory.tbl), root, v)
      ensures ok && !r <==> old(memory.free) == []
      ensures ok && r <==> 1 + Missing(old(memory.tbl), root, va) <= |old(memory.free)|
      ensures ok && r ==> |memory.free| == |old(memory.free)| - 1 - Missing(old(memory.tbl), root, va)
                          && Way(root, va, 0) in memory.tbl
    {
      hide TreeOk, FramesOk, ListOk, Private, Get, Trans, Missing;
      ghost var m0, o0, t0 := memory.mem, memory.own, memory.tbl;
      WidenedSame(m0, o0, t0, memory.free, root);
      OwnIn(m0, o0, memory.free);
      var pa := memory.AllocPage(User(root, Vpn(va)));
      if pa == 0 { return true, false; }
      NoTable(memory.mem, memory.own, memory.tbl, pa);
      FrameRange(memory.mem, memory.own, memory.free, pa);
      memory.ClearPage(pa);
      FillPage(pa, part);
      ghost var m1, o1, t1 := memory.mem, memory.own, memory.tbl;
      DupWidened(m0, o0, t0, m1, o1, pa, root);
      MakePteParts(pa, perm);
      ok := memory.MapPage(root, va, pa, perm);
      if ok {
        MappedWidened(m1, o1, t1, memory.mem, memory.own, memory.tbl, root, va, pa, perm);
        WidenedTrans(m0, o0, t0, m1, o1, t1, memory.mem, memory.own, memory.tbl, root);
        WidenedPage(m1, o1, t1, memory.mem, memory.own, memory.tbl, root, pa);
      }
      return ok, true;
    }

    /** The loop of user_init over the pages of the program; `hi` pages are still to come in all. */
    method LoadPages(root: nat, prog: seq<byte>, ghost hi: nat) returns (ok: bool, r: bool)
      requires memory.Valid() && memory.IsRoot(root) && |memory.mem.Keys| < Vpn(TRAPFRAME) && Pages(|prog|) <= hi
      modifies memory
      ensures |old(memory.free)| >= hi + Tables(0, hi) ==> ok && r
      ensures ok ==> && memory.Valid() && memory.IsRoot(root)
                     && Widened(old(memory.mem), old(memory.own), old(memory.tbl), memory.mem, memory.own, memory.tbl,
                                root)
      ensures ok && r ==> && Loaded(memory.mem, memory.tbl, root, prog, Pages(|prog|))
                          && Spent(memory.tbl, root, 0, Pages(|prog|), |old(memory.free)| - |memory.free|)
      ensures ok && r ==> forall v: nat {:trigger Trans(memory.mem, memory.tbl, root, v)} :: v >= Pages(|prog|) ==>
                            Trans(memory.mem, memory.tbl, root, v) == Trans(old(memory.mem), old(memory.tbl), root, v)
    {
      hide TreeOk, FramesOk, ListOk, Private, Get, Trans, Widened, Vpn, Tables, Late, Loaded, PageIs, Full;
      ghost var m0, o0, t0, free0 := memory.mem, memory.own, memory.tbl, |memory.free|;
      WidenedSame(m0, o0, t0, memory.free, root);
      SpentNone(t0, root, 0);
      LoadedNone(m0, t0, root, prog);
      var i: nat := 0;
      while i < Pages(|prog|)
        invariant i <= Pages(|prog|) && memory.Valid() && memory.IsRoot(root)
                  && Widened(m0, o0, t0, memory.mem, memory.own, memory.tbl, root)
        invariant memory.mem.Keys == m0.Keys && Loaded(memory.mem, memory.tbl, root, prog, i)
                  && Spent(memory.tbl, root, 0, i, free0 - |memory.free|)
        invariant forall v: nat {:trigger Trans(memory.mem, memory.tbl, root, v)} ::
                    v >= i ==> Trans(memory.mem, memory.tbl, root, v) == Trans(m0, t0, root, v)
      {
        ghost var m1, o1, t1, f1 := memory.mem, memory.own, memory.tbl, |memory.free|;
        NextPart(prog, i);
        LoadedFull(m1, t1, root, prog, i);
        BelowTop(m1, o1, t1, memory.free, root, i, |prog|);
        SpendStep(t1, root, 0, i, free0 - f1, hi);
        MissingLate(m1, o1, t1, root, i);
        ok, r := LoadPage(root, PGSIZE * i, Part(prog, i), RWXU);
        if ok { WidenedTrans(m0, o0, t0, m1, o1, t1, memory.mem, memory.own, memory.tbl, root); }
        if !ok || !r { return; }
        SpentMore(memory.mem, memory.own, memory.tbl, root, 0, i, t1, free0 - f1, free0 - |memory.free|);
        LoadedMore(m1, o1, t1, memory.mem, memory.own, memory.tbl, root, prog, i);
        i := i + 1;
      }
      return true, true;
    }

    /** The trapframe of the first process: it starts at 0, with its stack pointer at `sp`. */
    method SetEntry(tf: nat, sp: nat)
      requires memory.Valid() && tf in memory.own && memory.own[tf].Trapframe? && tf in memory.mem
      modifies memory`mem
      ensures memory.Valid() && memory.mem == old(memory.mem)[tf := Put(Put(old(memory.mem)[tf], EPC, 8, 0), SP, 8, sp)]
      ensures forall r, v {:trigger Trans(memory.mem, memory.tbl, r, v)} ::
                Trans(memory.mem, memory.tbl, r, v) == Trans(old(memory.mem), memory.tbl, r, v)
    {
      hide TreeOk, FramesOk, ListOk, Private, Get, Put, Trans;
      var page: Page := Put(Put(memory.mem[tf], EPC, 8, 0), SP, 8, sp);
      NoTable(memory.mem, memory.own, memory.tbl, tf);
      PageWrite(memory.mem, memory.freelist, memory.own, memory.free, memory.tbl, tf, page);
      memory.mem := memory.mem[tf := page];
      PrivateKeep(old(memory.mem), memory.own, memory.tbl, memory.mem, memory.own, memory.tbl);
    }

    /** The program and the stack page above it. */
    method Load(root: nat, prog: seq<byte>) returns (ok: bool, r: bool)
      requires memory.Valid() && memory.IsRoot(root) && |memory.mem.Keys| < Vpn(TRAPFRAME)
      modifies memory
      ensures |old(memory.free)| >= Pages(|prog|) + 1 + Tables(0, Pages(|prog|) + 1) ==> ok && r
      ensures ok ==> && memory.Valid() && memory.IsRoot(root)
                     && Widened(old(memory.mem), old(memory.own), old(memory.tbl), memory.mem, memory.own, memory.tbl,
                                root)
      ensures ok && r ==> Loaded(memory.mem, memory.tbl, root, prog, Pages(|prog|) + 1)
                          && Pages(|prog|) < Vpn(TRAPFRAME)
      ensures ok && r ==> forall v: nat {:trigger Trans(memory.mem, memory.tbl, root, v)} :: v > Pages(|prog|) ==>
                            Trans(memory.mem, memory.tbl, root, v) == Trans(old(memory.mem), old(memory.tbl), root, v)
    {
      hide TreeOk, FramesOk, ListOk, Private, Get, Trans, Widened, Vpn, Tables, Late, Loaded, PageIs, Full;
      ghost var m0, o0, t0, free0 := memory.mem, memory.own, memory.tbl, |memory.free|;
      var k: nat := Pages(|prog|);
      ok, r := LoadPages(root, prog, k + 1);
      if !ok || !r { return; }
      ghost var m1, o1, t1, f1 := memory.mem, memory.own, memory.tbl, |memory.free|;
      WidenedKeys(m0, o0, t0, m1, o1, t1, root);
      LoadedFull(m1, t1, root, prog, k);
      BelowTop(m1, o1, t1, memory.free, root, k, PGSIZE * k + 1);
      SpendStep(t1, root, 0, k, free0 - f1, k + 1);
      MissingLate(m1, o1, t1, root, k);
      NextPart(prog, k);
      ok, r := LoadPage(root, PGSIZE * k, [], RWU);
      if !ok { return; }
      WidenedTrans(m0, o0, t0, m1, o1, t1, memory.mem, memory.own, memory.tbl, root);
      if !r { return; }
      LoadedMore(m1, o1, t1, memory.mem, memory.own, memory.tbl, root, prog, k);
    }

    /** user_init up to its last step: an address space with the program in it. */
    method Spawn(prog: seq<byte>) returns (ok: bool, r: bool, s: Space)
      requires memory.Valid() && trampoline % PGSIZE == 0 && trampoline < MAXPA && trampoline !in memory.mem
               && |memory.mem.Keys| < Vpn(TRAPFRAME)
      modifies memory
      ensures |old(memory.free)| >= 5 + Pages(|prog|) + 1 + Tables(0, Pages(|prog|) + 1) ==> ok && r
      ensures ok ==> && memory.Valid()
                     && Widened(old(memory.mem), old(memory.own), old(memory.tbl), memory.mem, memory.own, memory.tbl,
                                s.root)
                     && s.root !in old(memory.own)
      ensures ok && r ==> && SpaceOk(memory.mem, memory.own, memory.tbl, s, trampoline)
                          && Flat(memory.mem, memory.tbl, s.root) == Image(prog)
                          && s.kstack !in old(memory.own) && s.sz == PGSIZE * (Pages(|prog|) + 1)
      ensures ok && r ==> s.tf in memory.mem && Get(memory.mem[s.tf], EPC, 8) == 0
                          && Get(memory.mem[s.tf], SP, 8) == s.sz
                          && PermsAre(memory.mem, memory.tbl, s.root, Pages(|prog|), 1)
    {
      hide TreeOk, FramesOk, ListOk, Private, Get, Put, Trans, Widened, Tables, Loaded, OnlyTop, TopIs, SpaceOk, Flat,
           Image, Vpn, PermsAre, SamePerms;
      ghost var m0, o0, t0 := memory.mem, memory.own, memory.tbl;
      var kstack, root, tf;
      ok, kstack, root, tf := memory.AllocProcess(trampoline);
      r, s := false, Space(kstack, root, tf, PGSIZE * (Pages(|prog|) + 1));
      if !ok || tf == 0 { return; }
      ghost var m1, o1, t1 := memory.mem, memory.own, memory.tbl;
      WidenedKeys(m0, o0, t0, m1, o1, t1, root);
      ok, r := Load(root, prog);
      if !ok { return; }
      ghost var m2, o2, t2 := memory.mem, memory.own, memory.tbl;
      WidenedTrans(m0, o0, t0, m1, o1, t1, m2, o2, t2, root);
      if !r { return; }
      WidenedPage(m1, o1, t1, m2, o2, t2, root, tf);
      WidenedPage(m1, o1, t1, m2, o2, t2, root, kstack);
      InitOk(m1, t1, m2, o2, t2, s, trampoline, prog);
      SetEntry(tf, s.sz);
      EntrySet(m2[tf], s.sz);
      ImageStays(m2, o2, t2, memory.mem, s, trampoline);
      PermsAreStill(m2, t2, memory.mem, memory.tbl, root, Pages(|prog|), 1);
      WidenedLate(m0, o0, t0, m2, o2, t2, memory.mem, root, tf);
    }

    /** user_init: the first process sees its program from 0 on and a page of stack above it. It
        succeeds when there are five pages, one for each of those and the tables that they can need. */
    method UserInit(c: nat, prog: seq<byte>) returns (ok: bool, r: bool)
      requires Valid() && c !in slots
      modifies this, memory
      ensures |old(memory.free)| >= Need(old(slots), Start(c, prog)) ==> ok && r
      ensures ok ==> Valid() && memory.mem.Keys == old(memory.mem).Keys
                     && slots.Keys == old(slots).Keys + if r then {c} else {}
      ensures ok ==> AllKept(old(memory.mem), old(memory.tbl), old(slots), memory.mem, memory.tbl, slots, {})
      ensures ok && r ==> Started(Now(), c, prog)
    {
      hide TreeOk, FramesOk, ListOk, Private, Get, Put, Trans, Widened, Tables, SpaceOk, SlotsOk, AllKept, Seen, Flat,
           Image, Pages, Vpn, PermsAre;
      ghost var m0, o0, t0 := memory.mem, memory.own, memory.tbl;
      var s;
      ok, r, s := Spawn(prog);
      if !ok { return; }
      SlotJoins(m0, o0, t0, memory.mem, memory.own, memory.tbl, slots, trampoline, c, s);
      if r { slots := slots[c := s]; }
    }

    /** One call. `ok` is false only for want of pages. */
    method Step(e: Call) returns (ok: bool, r: bool)
      requires Valid() && Can(slots, e)
      modifies this, memory
      ensures |old(memory.free)| >= Need(old(slots), e) ==> ok
      ensures ok ==> Valid() && Effect(old(Now()), e, r, Now())
    {
      hide FramesOk, ListOk, TreeOk, Private, SlotsOk, AllKept, Vpn, Tables, Pages, Cost, Started, Forked, Grew, Effect;
      ok, r := true, true;
      match e {
        case Start(c, prog) =>
          ok, r := UserInit(c, prog);
          if ok { StartEffect(old(Now()), c, prog, r, Now()); }
        case Forks(p, c) =>
          ok, r := Fork(p, c);
          if ok { ForkEffect(old(Now()), p, c, r, Now()); }
        case Grows(p, n) =>
          ok, r := Sbrk(p, n);
          if ok { GrowEffect(old(Now()), p, n, r, Now()); }
        case Waits(c) =>
          Collect(c);
          WaitEffect(old(Now()), c, Now());
        case Stores(p, va, src) =>
          r := Store(p, va, src);
          StoreEffect(old(Now()), p, va, src, r, Now());
      }
    }

    /** Any run. It is a run of steps as specified, and ends early only when the next call finds fewer
        free pages than it needs. */
    method Run(es: seq<Call>) returns (ok: bool, rs: seq<bool>, ghost tr: seq<State>)
      requires Valid()
      modifies this, memory
      ensures IsRun(tr, es, rs, trampoline) && tr[0] == old(Now())
      ensures if ok then |rs| == |es| && tr[|rs|] == Now() && Valid() else |rs| < |es| && OutOfPages(tr[|rs|], es[|rs|])
    {
      hide FramesOk, ListOk, TreeOk, Private, SlotsOk, Vpn, Can, Effect, Need;
      rs, tr := [], [Now()];
      while |rs| < |es|
        invariant Valid() && IsRun(tr, es, rs, trampoline) && tr[0] == old(Now()) && tr[|rs|] == Now()
      {
        var r := false;
        if Can(slots, es[|rs|]) {
          ok, r := Step(es[|rs|]);
          if !ok { return; }
        }
        RunMore(tr, es, rs, trampoline, r, Now());
        rs, tr := rs + [r], tr + [Now()];
      }
      return true, rs, tr;
    }
  }

  /** From pmm_init on, with `taken` pages used up by vm_init for the kernel's own page table. `k` is
      null when there are not so many. */
  method RunFromBoot(image: Mem, end: nat, taken: nat, trampoline: nat, es: seq<Call>)
    returns (ok: bool, k: Procs?, rs: seq<bool>, ghost tr: seq<State>)
    requires 0 < end && forall f :: f in image <==> f % PGSIZE == 0 && RoundUp(end) <= f && f + PGSIZE <= PHYSTOP
    requires trampoline % PGSIZE == 0 && trampoline < RoundUp(end) <= PHYSTOP
    ensures (k == null <==> taken > |image|) && (k == null ==> !ok)
    ensures k != null ==> && IsRun(tr, es, rs, trampoline) && tr[0].slots == map[] && |tr[0].free| == |image| - taken
                          && tr[0].m.Keys == image.Keys
    ensures k != null ==> if ok then |rs| == |es| && tr[|rs|] == k.Now() && k.Valid()
                          else |rs| < |es| && OutOfPages(tr[|rs|], es[|rs|])
  {
    hide FramesOk, ListOk, TreeOk, Private, Trans;
    var memory := new Memory.PmmInit(image, end);
    rs, tr := [], [];
    FreeAll(memory.mem, memory.free);
    var n := 0;
    while n < taken
      invariant memory.Valid() && memory.mem.Keys == image.Keys && fresh(memory) && n <= taken
                && |memory.free| == |image| - n
    {
      var pa := memory.AllocPage(Boot);
      if pa == 0 { return false, null, rs, tr; }
      n := n + 1;
    }
    FewPages(image.Keys, PHYSTOP / PGSIZE);
    k := new Procs(memory, trampoline);
    ok, rs, tr := k.Run(es);
  }

  const KERNEL_END := 0x8002_0000
  const TRAMP := 0x8000_1000

  /** The pages from the end of the kernel to PHYSTOP, all zero. */
  function Ram(): Mem {
    map f: nat | f < PHYSTOP && f % PGSIZE == 0 && KERNEL_END <= f :: Zeros(PGSIZE)
  }

  lemma RamPages()
    ensures forall f :: f in Ram() <==> f % PGSIZE == 0 && RoundUp(KERNEL_END) <= f && f + PGSIZE <= PHYSTOP
    ensures |Ram()| >= 8
  {
    assert RoundUp(KERNEL_END) == KERNEL_END && PHYSTOP % PGSIZE == 0;
    var l := seq(8, j => KERNEL_END + PGSIZE * j);
    forall j | 0 <= j < 8 ensures l[j] in Ram().Keys { assert (KERNEL_END + PGSIZE * j) % PGSIZE == 0; }
    Card(l, Ram().Keys, 8);
    assert |Ram().Keys| == |Ram()|;
  }

  /** pmm_init, user_init of a program of no pages, and sbrk(-8192) by that process, whose size is one
      page: sbrk succeeds, and the processes are not in order any more. */
  method ShrinkBelow() returns (k: Procs, ghost before: State)
    ensures StateOk(before, TRAMP) && Grew(before, 0, -2 * PGSIZE, true, k.Now()) && before.slots[0].sz == PGSIZE
    ensures !k.Valid() && k.memory.Valid()
  {
    hide FramesOk, ListOk, TreeOk, Private, SlotsOk, Trans, Ram, Started, Vpn;
    RamPages();
    var memory := new Memory.PmmInit(Ram(), KERNEL_END);
    FreeAll(memory.mem, memory.free);
    FewPages(Ram().Keys, PHYSTOP / PGSIZE);
    Tops();
    k := new Procs(memory, TRAMP);
    var ok, r := k.UserInit(0, []);
    before := k.Now();
    OnePage(before);
    ok, r := k.Sbrk(0, -2 * PGSIZE);
  }

  lemma Tops()
    ensures Vpn(TRAPFRAME) > PHYSTOP / PGSIZE && Pages(0) == 0 && Tables(0, 1) == 2
  {
  }

  lemma OnePage(s: State)
    requires Started(s, 0, [])
    ensures 0 in s.slots && s.slots[0].sz == PGSIZE
  {
  }

  /** After pmm_init every page is free. */
  lemma FreeAll(m: Mem, free: seq<nat>)
    requires FramesOk(m, map[], free)
    ensures |free| == |m|
  {
    forall j | 0 <= j < |free| ensures free[j] in m.Keys { assert free[j] in m; }
    Card(free, m.Keys, |free|);
    forall f | f in m.Keys ensures f in free { assert f in m; }
    CardIn(m.Keys, free);
    assert |m.Keys| == |m|;
  }

  lemma {:induction false} CardIn(s: set<nat>, l: seq<nat>)
    requires forall f :: f in s ==> f in l
    ensures |s| <= |l|
  {
    if l == [] {
      assert s == {};
    } else {
      CardIn(s - {l[0]}, l[1..]);
      assert |s| <= |s - {l[0]}| + 1 by {
        if l[0] in s { assert s == s - {l[0]} + {l[0]}; } else { assert s == s - {l[0]}; }
      }
    }
  }

  /** There are not so many pages that a heap could reach the trapframe. */
  lemma {:induction false} FewPages(fs: set<nat>, n: nat)
    requires forall f :: f in fs ==> f % PGSIZE == 0 && f < PGSIZE * n
    ensures |fs| <= n
  {
    if n > 0 {
      var top := PGSIZE * (n - 1);
      forall f | f in fs - {top} ensures f < top { LastPage(f, n); }
      FewPages(fs - {top}, n - 1);
      assert |fs| <= |fs - {top}| + 1 by {
        if top in fs { assert fs == fs - {top} + {top}; } else { assert fs == fs - {top}; }
      }
    } else {
      assert fs == {};
    }
  }

  lemma LastPage(f: nat, n: nat)
    requires f % PGSIZE == 0 && f < PGSIZE * n && n > 0
    ensures f <= PGSIZE * (n - 1)
  {
  }
}
