/** The process table and scheduler of kernel/proc.c. A `struct proc *` is a slot number, NPROC
    being the null pointer. Kernel code is not preempted, so each stretch of it between two
    context switches is one step. */
module Proc {
  const NPROC := 64
  const NULL := NPROC

  datatype PState = UNUSED | USED | RUNNABLE | RUNNING | SLEEPING | ZOMBIE

  /** What a process sleeps on: nothing, a process slot (as wait does), or anything else. */
  datatype Chan = NoChan | OnProc(p: nat) | OnOther(x: nat)

  /** The process table, one sequence per field, and the scheduler's variables; `scan` is the
      slot that the scheduler loop looks at next. */
  datatype Sched = Sched(
    state: seq<PState>, pid: seq<nat>, parent: seq<nat>, chan: seq<Chan>, code: seq<int>, killed: seq<bool>,
    current: nat, nextpid: nat, scan: nat)

  predicate Shape(s: Sched) {
    && |s.state| == |s.pid| == |s.parent| == |s.chan| == |s.code| == |s.killed| == NPROC
    && s.current <= NPROC && s.scan < NPROC && s.nextpid > 0
  }

  /** How far fork gets: no frame for alloc_process, a failing page copy, or all the way. */
  datatype Outcome = NoFrame | CopyFails | Forked

  datatype Event =
    | Scan                                      // one round of the scheduler's inner loop
    | Spawn(o: Outcome)                         // user_init
    | Yield
    | Sleep(chan: Chan)
    | Wakeup(chan: Chan)
    | Exit(status: int)
    | Wait                                      // one round of wait_process
    | Kill(victim: nat)
    | Fork(o: Outcome)

  /** What a caller sees of a step. */
  datatype Result = Nothing | Dispatched(p: nat) | Collected(pid: nat,
      code: int) | NoKids | Slept | Child(pid: nat) | Failed | Done

  /** The scheduler runs when no process does; a process step is one of the current process. */
  predicate Enabled(s: Sched, e: Event) {
    match e
    case Scan => s.current == NULL
    case Spawn(_) => s.current == NULL
    case Wakeup(_) => true
    case Kill(_) => true
    case Sleep(c) => s.current < NPROC && c.OnOther?
    case _ => s.current < NPROC
  }

  function NextSlot(i: nat): (j: nat)
    requires i < NPROC
    ensures j < NPROC
  {
    if i == NPROC - 1 then 0 else i + 1
  }

  /** The first slot from `i` on in state `st`; NPROC if there is none. */
  function FirstIn(s: Sched, st: PState, i: nat): (f: nat)
    requires Shape(s) && i <= NPROC
    ensures i <= f <= NPROC && (f < NPROC ==> s.state[f] == st) && forall j :: i <= j < f ==> s.state[j] != st
    decreases NPROC - i
  {
    if i == NPROC || s.state[i] == st then i else FirstIn(s, st, i + 1)
  }

  /** The first zombie child of `p`, the first slot with a pid. */
  function FirstZombie(s: Sched, p: nat, i: nat): (f: nat)
    requires Shape(s) && i <= NPROC
    ensures i <= f <= NPROC && (f < NPROC ==> s.parent[f] == p && s.state[f] == ZOMBIE)
    ensures forall j :: i <= j < f ==> !(s.parent[j] == p && s.state[j] == ZOMBIE)
    decreases NPROC - i
  {
    if i == NPROC || (s.parent[i] == p && s.state[i] == ZOMBIE) then i else FirstZombie(s, p, i + 1)
  }

  function FirstPid(s: Sched, v: nat, i: nat): (f: nat)
    requires Shape(s) && i <= NPROC
    ensures i <= f <= NPROC && (f < NPROC ==> s.pid[f] == v) && forall j :: i <= j < f ==> s.pid[j] != v
    decreases NPROC - i
  {
    if i == NPROC || s.pid[i] == v then i else FirstPid(s, v, i + 1)
  }

  predicate HasKids(s: Sched, p: nat)
    requires Shape(s)
  {
    exists i :: 0 <= i < NPROC && s.parent[i] == p
  }

  function Woken(s: Sched, c: Chan): (s': Sched)
    requires Shape(s)
    ensures Shape(s')
  {
    s.(state := seq(NPROC, i requires 0 <= i < NPROC => if s.state[i] == SLEEPING && s.chan[i] == c then RUNNABLE
                                                        else s.state[i]),
       chan := seq(NPROC, i requires 0 <= i < NPROC => if s.state[i] == SLEEPING && s.chan[i] == c then NoChan
                                                       else s.chan[i]))
  }

  /** alloc_process in slot `i`, and what the caller makes of it. */
  function Started(s: Sched, i: nat, parent: nat, o: Outcome): (s': Sched)
    requires Shape(s) && i < NPROC
    ensures Shape(s')
  {
    var s1 := s.(pid := s.pid[i := s.nextpid], nextpid := s.nextpid + 1, state := s.state[i := USED]);
    match o
    case NoFrame => s1
    case CopyFails => s1.(state := s.state[i := UNUSED], parent := s.parent[i := NULL], chan := s.chan[i := NoChan])
    case Forked => s1.(state := s.state[i := RUNNABLE], parent := s.parent[i := parent], chan := s.chan[i := NoChan])
  }

  /** The scheduler hands the processor to the process of slot `scan`. If it resumes inside
      sleep, the first thing it does is to clear its channel; otherwise that is clear already. */
  function Dispatch(s: Sched): (s': Sched)
    requires Shape(s)
    ensures Shape(s')
  {
    s.(state := s.state[s.scan := RUNNING], chan := s.chan[s.scan := NoChan], current := s.scan,
       scan := NextSlot(s.scan))
  }

  /** The current process gives up the processor. */
  function Leaves(s: Sched, st: PState, c: Chan): (s': Sched)
    requires Shape(s) && s.current < NPROC
    ensures Shape(s')
  {
    s.(state := s.state[s.current := st], chan := s.chan[s.current := c], current := NULL)
  }

  /** exit_process. */
  function Exited(s: Sched, status: int): (s': Sched)
    requires Shape(s) && s.current < NPROC
    ensures Shape(s')
  {
    var p := s.current;
    var s1 := s.(code := s.code[p := status], state := s.state[p := ZOMBIE], current := NULL);
    if s.parent[p] < NPROC then Woken(s1, OnProc(s.parent[p])) else s1
  }

  /** wait_process collects the zombie of slot `z`. */
  function Reaped(s: Sched, z: nat): (s': Sched)
    requires Shape(s) && z < NPROC
    ensures Shape(s')
  {
    s.(state := s.state[z := UNUSED], pid := s.pid[z := 0], parent := s.parent[z := NULL])
  }

  /** kill of the process of slot `i`. */
  function Killed(s: Sched, i: nat): (s': Sched)
    requires Shape(s) && i < NPROC
    ensures Shape(s')
  {
    s.(killed := s.killed[i := true], state := if s.state[i] == SLEEPING then s.state[i := RUNNABLE] else s.state)
  }

  /** One step. */
  function Step(s: Sched, e: Event): (r: (Sched, Result))
    requires Shape(s) && Enabled(s, e)
    ensures Shape(r.0)
  {
    match e
    case Scan =>
      if s.state[s.scan] == RUNNABLE then (Dispatch(s), Dispatched(s.scan))
      else (s.(scan := NextSlot(s.scan)), Nothing)
    case Spawn(o) =>
      var i := FirstIn(s, UNUSED, 0);
      if i == NPROC then (s, Failed)
      else if o == Forked then (Started(s, i, NULL, o), Child(s.nextpid)) else (Started(s, i, NULL, NoFrame), Failed)
    case Yield => (Leaves(s, RUNNABLE, s.chan[s.current]), Nothing)
    case Sleep(c) => (Leaves(s, SLEEPING, c), Slept)
    case Wakeup(c) => (Woken(s, c), Nothing)
    case Exit(status) => (Exited(s, status), Nothing)
    case Wait =>
      var p := s.current;
      var z := FirstZombie(s, p, 0);
      if z < NPROC then (Reaped(s, z), Collected(s.pid[z], s.code[z]))
      else if !HasKids(s, p) then (s, NoKids)
      else (Leaves(s, SLEEPING, OnProc(p)), Slept)
    case Kill(v) =>
      var i := FirstPid(s, v, 0);
      if i == NPROC then (s, Failed) else (Killed(s, i), Done)
    case Fork(o) =>
      var i := FirstIn(s, UNUSED, 0);
      if i == NPROC then (s, Failed)
      else (Started(s, i, s.current, o), if o == Forked then Child(s.nextpid) else Failed)
  }

  /** The state after proc_init. */
  function Init(): Sched {
    Sched(seq(NPROC, _ => UNUSED), seq(NPROC, _ => 0), seq(NPROC, _ => NULL), seq(NPROC, _ => NoChan),
          seq(NPROC, _ => 0),
      seq(NPROC, _ => false), NULL, 1, 0)
  }

  /** At most one slot is RUNNING, and it is current_proc. */
  ghost predicate OneRunning(s: Sched)
    requires Shape(s)
  {
    forall i {:trigger s.state[i]} :: 0 <= i < NPROC ==> (s.state[i] == RUNNING <==> i == s.current)
  }

  /** Live pids are distinct and were handed out before. */
  ghost predicate PidsOk(s: Sched)
    requires Shape(s)
  {
    && (forall i {:trigger s.pid[i]} :: 0 <= i < NPROC && s.state[i] != UNUSED ==> 0 < s.pid[i] < s.nextpid)
    && (forall i, j {:trigger s.pid[i], s.pid[j]} ::
          0 <= i < j < NPROC && s.state[i] != UNUSED && s.state[j] != UNUSED ==> s.pid[i] != s.pid[j])
  }

  /** No slot sleeps on its own channel while a slot that names it as parent is a zombie. */
  ghost predicate NoLostWakeup(s: Sched)
    requires Shape(s)
  {
    forall q {:trigger s.parent[q]} :: 0 <= q < NPROC && s.state[q] == ZOMBIE && s.parent[q] < NPROC ==>
      !(s.state[s.parent[q]] == SLEEPING && s.chan[s.parent[q]] == OnProc(s.parent[q]))
  }

  ghost predicate Inv(s: Sched) {
    Shape(s) && OneRunning(s) && PidsOk(s) && NoLostWakeup(s)
  }

  lemma InitInv()
    ensures Inv(Init())
  {
  }

  lemma DispatchInv(s: Sched)
    requires Inv(s) && s.current == NULL && s.state[s.scan] == RUNNABLE
    ensures Inv(Dispatch(s))
  {
  }

  lemma LeavesInv(s: Sched, st: PState, c: Chan)
    requires Inv(s) && s.current < NPROC && (st == RUNNABLE || st == SLEEPING)
    requires st == SLEEPING && c == OnProc(s.current) ==> FirstZombie(s, s.current, 0) == NPROC
    ensures Inv(Leaves(s, st, c))
  {
    hide FirstZombie;
  }

  lemma WokenInv(s: Sched, c: Chan)
    requires Inv(s)
    ensures Inv(Woken(s, c))
  {
  }

  /** The parent is awake when its child has become a zombie. */
  lemma ExitedInv(s: Sched, status: int)
    requires Inv(s) && s.current < NPROC
    ensures Inv(Exited(s, status))
  {
    var s' := Exited(s, status);
    forall q | 0 <= q < NPROC && s'.state[q] == ZOMBIE && s'.parent[q] < NPROC
      ensures !(s'.state[s'.parent[q]] == SLEEPING && s'.chan[s'.parent[q]] == OnProc(s'.parent[q]))
    {
      assert q != s.current ==> s.state[q] == ZOMBIE;
    }
  }

  lemma ReapedInv(s: Sched, z: nat)
    requires Inv(s) && z < NPROC && s.state[z] == ZOMBIE
    ensures Inv(Reaped(s, z))
  {
  }

  lemma KilledInv(s: Sched, i: nat)
    requires Inv(s) && i < NPROC
    ensures Inv(Killed(s, i))
  {
  }

  lemma StartedInv(s: Sched, i: nat, parent: nat, o: Outcome)
    requires Inv(s) && i < NPROC && s.state[i] == UNUSED && (parent == NULL || parent == s.current)
    ensures Inv(Started(s, i, parent, o))
  {
  }

  /** Every step keeps the invariant. */
  lemma StepInv(s: Sched, e: Event)
    requires Inv(s) && Enabled(s, e)
    ensures Inv(Step(s, e).0)
  {
    hide OneRunning, PidsOk, NoLostWakeup, Dispatch, Leaves, Woken, Exited, Reaped, Killed, Started, FirstIn,
         FirstZombie, FirstPid;
    match e
    case Scan =>
      if s.state[s.scan] == RUNNABLE { DispatchInv(s); } else { ScanInv(s); }
    case Spawn(o) =>
      var i := FirstIn(s, UNUSED, 0);
      if i < NPROC { StartedInv(s, i, NULL, o); StartedInv(s, i, NULL, NoFrame); }
    case Yield => LeavesInv(s, RUNNABLE, s.chan[s.current]);
    case Sleep(c) => LeavesInv(s, SLEEPING, c);
    case Wakeup(c) => WokenInv(s, c);
    case Exit(status) => ExitedInv(s, status);
    case Wait =>
      var z := FirstZombie(s, s.current, 0);
      if z < NPROC { ReapedInv(s, z); } else { LeavesInv(s, SLEEPING, OnProc(s.current)); }
    case Kill(v) =>
      var i := FirstPid(s, v, 0);
      if i < NPROC { KilledInv(s, i); }
    case Fork(o) =>
      var i := FirstIn(s, UNUSED, 0);
      if i < NPROC { StartedInv(s, i, s.current, o); }
  }

  lemma RunsCurrent(s: Sched)
    requires Shape(s) && OneRunning(s)
    ensures s.current < NPROC ==> s.state[s.current] == RUNNING
  {
  }

  lemma ScanInv(s: Sched)
    requires Inv(s)
    ensures Inv(s.(scan := NextSlot(s.scan)))
  {
  }

  /** The states that a sequence of steps goes through. */
  ghost predicate IsRun(ss: seq<Sched>, es: seq<Event>) {
    && |ss| == |es| + 1 && ss[0] == Init()
    && forall i {:trigger es[i]} ::
         0 <= i < |es| ==> Shape(ss[i]) && Enabled(ss[i], es[i]) && ss[i + 1] == Step(ss[i], es[i]).0
  }

  lemma {:induction false} RunInv(ss: seq<Sched>, es: seq<Event>, n: nat)
    requires IsRun(ss, es) && n <= |es|
    ensures Inv(ss[n])
  {
    hide Step, OneRunning, PidsOk, NoLostWakeup;
    if n == 0 {
      InitInv();
    } else {
      RunInv(ss, es, n - 1);
      assert ss[n] == Step(ss[n - 1], es[n - 1]).0;
      StepInv(ss[n - 1], es[n - 1]);
    }
  }

  /** The result of the n-th step. */
  ghost function ResultAt(ss: seq<Sched>, es: seq<Event>, n: nat): Result
    requires IsRun(ss, es) && n < |es|
  {
    assert Enabled(ss[n], es[n]);
    Step(ss[n], es[n]).1
  }

  /** How many slots the scheduler looks at before slot `i`. */
  function Ahead(s: Sched, i: nat): (d: nat)
    requires Shape(s) && i < NPROC
    ensures d < NPROC
  {
    if i >= s.scan then i - s.scan else i + NPROC - s.scan
  }

  /** A RUNNABLE process stays so until it is dispatched; meanwhile every dispatch of another
      process brings its turn closer. */
  lemma Turn(s: Sched, e: Event, i: nat)
    requires Shape(s) && Enabled(s, e) && i < NPROC && s.state[i] == RUNNABLE
             && (s.current < NPROC ==> s.state[s.current] == RUNNING)
    ensures var (s', r) := Step(s, e);
            if r == Dispatched(i) then s'.state[i] == RUNNING && s'.current == i
            else s'.state[i] == RUNNABLE && Ahead(s', i) + (if r.Dispatched? then 1 else 0) <= Ahead(s, i)
  {
    hide FirstPid, FirstZombie, FirstIn;
  }

  ghost function Dispatches(ss: seq<Sched>, es: seq<Event>, a: nat, b: nat): nat
    requires IsRun(ss, es) && a <= b <= |es|
    decreases b - a
  {
    if a == b then 0 else (if ResultAt(ss, es, a).Dispatched? then 1 else 0) + Dispatches(ss, es, a + 1, b)
  }

  /** As long as a RUNNABLE process is not dispatched, at most NPROC - 1 others are. */
  lemma {:induction false} Fairness(ss: seq<Sched>, es: seq<Event>, a: nat, b: nat, i: nat)
    requires IsRun(ss, es) && a <= b <= |es| && i < NPROC && Shape(ss[a]) && ss[a].state[i] == RUNNABLE
    requires forall k {:trigger ResultAt(ss, es, k)} :: a <= k < b ==> ResultAt(ss, es, k) != Dispatched(i)
    ensures Dispatches(ss, es, a, b) <= Ahead(ss[a], i) <= NPROC - 1
    ensures Shape(ss[b]) && ss[b].state[i] == RUNNABLE
    decreases b - a
  {
    hide Step, OneRunning, PidsOk, NoLostWakeup;
    if a < b {
      RunInv(ss, es, a);
      RunsCurrent(ss[a]);
      assert ss[a + 1] == Step(ss[a], es[a]).0;
      Turn(ss[a], es[a], i);
      assert ResultAt(ss, es, a) != Dispatched(i);
      Fairness(ss, es, a + 1, b, i);
    }
  }

  /** The exit of a child wakes a parent that sleeps in wait. */
  lemma ExitWakes(s: Sched, status: int)
    requires Inv(s) && s.current < NPROC && s.parent[s.current] < NPROC
    requires s.state[s.parent[s.current]] == SLEEPING && s.chan[s.parent[s.current]] == OnProc(s.parent[s.current])
    ensures Step(s, Exit(status)).0.state[s.parent[s.current]] == RUNNABLE
  {
  }

  /** Pid `v` has been handed out, and its process is a zombie if it is there at all. */
  ghost predicate Dead(s: Sched, v: nat) {
    Shape(s) && v < s.nextpid && forall i {:trigger s.pid[i]} :: 0 <= i < NPROC && s.pid[i] == v ==>
                                                                 s.state[i] == ZOMBIE || s.state[i] == UNUSED
  }

  /** No process has pid `v`, nor ever will again. */
  ghost predicate Gone(s: Sched, v: nat) {
    Shape(s) && v < s.nextpid && forall i {:trigger s.pid[i]} :: 0 <= i < NPROC && s.pid[i] == v ==>
                                                                 s.state[i] == UNUSED
  }

  lemma StaysDead(s: Sched, e: Event, v: nat)
    requires Inv(s) && Enabled(s, e) && Dead(s, v) && v > 0
    ensures Dead(Step(s, e).0, v)
  {
    hide OneRunning, PidsOk, NoLostWakeup, FirstZombie, FirstPid, FirstIn, HasKids;
    RunsCurrent(s);
  }

  lemma StaysGone(s: Sched, e: Event, v: nat)
    requires Inv(s) && Enabled(s, e) && Gone(s, v) && v > 0
    ensures Gone(Step(s, e).0, v)
  {
    hide OneRunning, PidsOk, NoLostWakeup, FirstZombie, FirstPid, FirstIn, HasKids;
    RunsCurrent(s);
  }

  lemma {:induction false} GoneLater(ss: seq<Sched>, es: seq<Event>, a: nat, b: nat, v: nat)
    requires IsRun(ss, es) && a <= b <= |es| && Gone(ss[a], v) && v > 0
    ensures Gone(ss[b], v)
    decreases b - a
  {
    hide Step, OneRunning, PidsOk, NoLostWakeup, Gone;
    if a < b {
      RunInv(ss, es, a);
      assert ss[a + 1] == Step(ss[a], es[a]).0;
      StaysGone(ss[a], es[a], v);
      GoneLater(ss, es, a + 1, b, v);
    }
  }

  lemma {:induction false} DeadLater(ss: seq<Sched>, es: seq<Event>, a: nat, b: nat, v: nat)
    requires IsRun(ss, es) && a <= b <= |es| && Dead(ss[a], v) && v > 0
    ensures Dead(ss[b], v)
    decreases b - a
  {
    hide Step, OneRunning, PidsOk, NoLostWakeup, Dead;
    if a < b {
      RunInv(ss, es, a);
      assert ss[a + 1] == Step(ss[a], es[a]).0;
      StaysDead(ss[a], es[a], v);
      DeadLater(ss, es, a + 1, b, v);
    }
  }

  /** The process with pid `v` exits with `code` at step `x`. */
  ghost predicate Exits(ss: seq<Sched>, es: seq<Event>, x: nat, v: nat, code: int)
    requires IsRun(ss, es) && x < |es|
  {
    es[x] == Exit(code) && Shape(ss[x]) && ss[x].current < NPROC && ss[x].pid[ss[x].current] == v
  }

  /** A zombie was left by an exit with its pid and code. */
  lemma {:induction false} ZombieExited(ss: seq<Sched>, es: seq<Event>, n: nat, z: nat) returns (x: nat)
    requires IsRun(ss, es) && n <= |es| && Shape(ss[n]) && z < NPROC && ss[n].state[z] == ZOMBIE
    ensures x < n && Exits(ss, es, x, ss[n].pid[z], ss[n].code[z])
  {
    hide OneRunning, PidsOk, NoLostWakeup, FirstZombie, FirstPid, FirstIn;
    assert n > 0;
    var e := es[n - 1];
    assert ss[n] == Step(ss[n - 1], e).0;
    RunInv(ss, es, n - 1);
    RunsCurrent(ss[n - 1]);
    if ss[n - 1].state[z] == ZOMBIE {
      ZombieSame(ss[n - 1], e, z);
      x := ZombieExited(ss, es, n - 1, z);
    } else {
      ZombieMade(ss[n - 1], e, z);
      x := n - 1;
    }
  }

  lemma ZombieSame(s: Sched, e: Event, z: nat)
    requires Shape(s) && Enabled(s, e) && z < NPROC && s.state[z] == ZOMBIE && Step(s, e).0.state[z] == ZOMBIE
    requires s.current < NPROC ==> s.state[s.current] == RUNNING
    ensures Step(s, e).0.pid[z] == s.pid[z] && Step(s, e).0.code[z] == s.code[z]
  {
    hide FirstPid;
  }

  lemma ZombieMade(s: Sched, e: Event, z: nat)
    requires Shape(s) && Enabled(s, e) && z < NPROC && s.state[z] != ZOMBIE && Step(s, e).0.state[z] == ZOMBIE
    ensures e.Exit? && s.current == z && Step(s, e).0.code[z] == e.status && Step(s, e).0.pid[z] == s.pid[z]
  {
    hide FirstPid, FirstZombie;
  }

  /** What wait collects is a zombie child of the caller, and then it is gone. */
  lemma Collects(s: Sched, e: Event)
    requires Inv(s) && Enabled(s, e) && Step(s, e).1.Collected?
    ensures e == Wait && var z := FirstZombie(s, s.current, 0);
            && z < NPROC && s.state[z] == ZOMBIE && s.parent[z] == s.current
            && Step(s, e).1 == Collected(s.pid[z], s.code[z]) && s.pid[z] > 0
            && Gone(Step(s, e).0, s.pid[z])
  {
    hide OneRunning, NoLostWakeup, FirstPid, FirstIn, Woken, Started, Killed, Leaves, Dispatch;
  }

  lemma ExitDies(s: Sched, status: int)
    requires Inv(s) && s.current < NPROC
    ensures s.pid[s.current] > 0 && Dead(Step(s, Exit(status)).0, s.pid[s.current])
  {
    hide NoLostWakeup;
    assert s.state[s.current] == RUNNING;
  }

  /** A process exits at most once. */
  lemma ExitsOnce(ss: seq<Sched>, es: seq<Event>, x: nat, y: nat, v: nat, c: int, d: int)
    requires IsRun(ss, es) && x < |es| && y < |es| && Exits(ss, es, x, v, c) && Exits(ss, es, y, v, d)
    ensures x == y
  {
    hide Exits, Step;
    if x < y { NoSecondExit(ss, es, x, y, v, c, d); }
    if y < x { NoSecondExit(ss, es, y, x, v, d, c); }
  }

  lemma NoSecondExit(ss: seq<Sched>, es: seq<Event>, x: nat, y: nat, v: nat, c: int, d: int)
    requires IsRun(ss, es) && x < y < |es| && Exits(ss, es, x, v, c)
    ensures !Exits(ss, es, y, v, d)
  {
    hide Step, OneRunning, PidsOk, NoLostWakeup;
    RunInv(ss, es, x);
    RunInv(ss, es, y);
    assert ss[x + 1] == Step(ss[x], es[x]).0;
    ExitDies(ss[x], c);
    DeadLater(ss, es, x + 1, y, v);
    RunsCurrent(ss[y]);
  }

  /** Each exit is collected at most once: two collections are of different processes, and each
      returns the pid and status of an earlier exit. */
  lemma CollectedOnce(ss: seq<Sched>, es: seq<Event>, x: nat, y: nat)
    requires IsRun(ss, es) && x < y < |es| && ResultAt(ss, es, x).Collected? && ResultAt(ss, es, y).Collected?
    ensures ResultAt(ss, es, x).pid != ResultAt(ss, es, y).pid
  {
    hide Step, OneRunning, PidsOk, NoLostWakeup;
    RunInv(ss, es, x);
    RunInv(ss, es, y);
    assert ss[x + 1] == Step(ss[x], es[x]).0 && Enabled(ss[y], es[y]);
    Collects(ss[x], es[x]);
    Collects(ss[y], es[y]);
    GoneLater(ss, es, x + 1, y, ResultAt(ss, es, x).pid);
    assert Gone(ss[y], ResultAt(ss, es, x).pid);
  }

  lemma CollectedExit(ss: seq<Sched>, es: seq<Event>, y: nat) returns (x: nat)
    requires IsRun(ss, es) && y < |es| && ResultAt(ss, es, y).Collected?
    ensures x < y && Exits(ss, es, x, ResultAt(ss, es, y).pid, ResultAt(ss, es, y).code)
  {
    hide Step, OneRunning, PidsOk, NoLostWakeup;
    RunInv(ss, es, y);
    assert Enabled(ss[y], es[y]);
    Collects(ss[y], es[y]);
    x := ZombieExited(ss, es, y, FirstZombie(ss[y], ss[y].current, 0));
  }

  /** proc[], current_proc, nextpid and the scheduler's loop. */
  class Table {
    var s: Sched

    constructor ()
      ensures s == Init()
    {
      s := Init();
      new;
      for i := 0 to NPROC
        invariant s == Init()
      {
        s := s.(state := s.state[i := UNUSED]);
        assert s.state == Init().state;
      }
    }

    /** The body of the scheduler's inner loop, up to the switch to the process. */
    method ScanOne()
      requires Shape(s) && Enabled(s, Scan)
      modifies this
      ensures s == Step(old(s), Scan).0
    {
      var i := s.scan;
      if s.state[i] == RUNNABLE {
        s := s.(state := s.state[i := RUNNING], current := i);
        s := s.(chan := s.chan[i := NoChan]);
      }
      s := s.(scan := if i + 1 < NPROC then i + 1 else 0);
    }

    method DoYield()
      requires Shape(s) && Enabled(s, Yield)
      modifies this
      ensures s == Step(old(s), Yield).0
    {
      var p := s.current;
      s := s.(state := s.state[p := RUNNABLE], current := NULL);
      assert s.chan == old(s).chan[p := old(s).chan[p]];
    }

    /** sleep, up to the switch to the scheduler. */
    method DoSleep(c: Chan)
      requires Shape(s) && s.current < NPROC
      modifies this
      ensures s == Leaves(old(s), SLEEPING, c)
    {
      var p := s.current;
      s := s.(chan := s.chan[p := c]);
      s := s.(state := s.state[p := SLEEPING]);
      s := s.(current := NULL);
    }

    method DoWakeup(c: Chan)
      requires Shape(s)
      modifies this
      ensures s == Woken(old(s), c)
    {
      ghost var s0, w := s, Woken(s, c);
      for i := 0 to NPROC
        invariant Shape(s) && s == s0.(state := s.state, chan := s.chan)
        invariant forall j :: 0 <= j < NPROC ==> s.state[j] == if j < i then w.state[j] else s0.state[j]
        invariant forall j :: 0 <= j < NPROC ==> s.chan[j] == if j < i then w.chan[j] else s0.chan[j]
      {
        if s.state[i] == SLEEPING && s.chan[i] == c {
          s := s.(state := s.state[i := RUNNABLE], chan := s.chan[i := NoChan]);
        }
      }
      assert s.state == w.state && s.chan == w.chan;
    }

    /** exit_process. */
    method DoExit(status: int)
      requires Shape(s) && Enabled(s, Exit(status))
      modifies this
      ensures s == Step(old(s), Exit(status)).0
    {
      var p := s.current;
      s := s.(code := s.code[p := status]);
      s := s.(state := s.state[p := ZOMBIE]);
      if s.parent[p] != NULL && s.parent[p] < NPROC { DoWakeup(OnProc(s.parent[p])); }
      s := s.(current := NULL);
    }

    /** One round of wait_process: `r` is a collected pid, -1 without children, or -2 after sleep. */
    method WaitRound() returns (r: Result)
      requires Shape(s) && Enabled(s, Wait)
      modifies this
      ensures (s, r) == Step(old(s), Wait)
    {
      var p, havekids, i := s.current, false, 0;
      while i < NPROC
        invariant 0 <= i <= NPROC && s == old(s)
        invariant FirstZombie(s, p, 0) == FirstZombie(s, p, i)
        invariant havekids <==> exists j :: 0 <= j < i && s.parent[j] == p
      {
        if s.parent[i] == p {
          havekids := true;
          if s.state[i] == ZOMBIE {
            r := Collected(s.pid[i], s.code[i]);
            s := s.(state := s.state[i := UNUSED], pid := s.pid[i := 0], parent := s.parent[i := NULL]);
            return;
          }
        }
        i := i + 1;
      }
      if !havekids { return NoKids; }
      DoSleep(OnProc(p));
      return Slept;
    }

    method DoKill(v: nat) returns (r: Result)
      requires Shape(s)
      modifies this
      ensures (s, r) == Step(old(s), Kill(v))
    {
      var i := 0;
      while i < NPROC
        invariant 0 <= i <= NPROC && s == old(s) && FirstPid(s, v, 0) == FirstPid(s, v, i)
      {
        if s.pid[i] == v {
          s := s.(killed := s.killed[i := true]);
          if s.state[i] == SLEEPING { s := s.(state := s.state[i := RUNNABLE]); }
          return Done;
        }
        i := i + 1;
      }
      return Failed;
    }

    /** alloc_process; `frames` says whether its page allocations succeed. NULL on failure, which
        leaves a slot that was taken in state USED. */
    method AllocProcess(frames: bool) returns (i: nat)
      requires Shape(s)
      modifies this
      ensures var f := FirstIn(old(s), UNUSED, 0);
              if f == NPROC then i == NULL && s == old(s)
              else if !frames then i == NULL && s == Started(old(s), f, NULL, NoFrame)
              else i == f && s == old(s).(pid := s.pid, nextpid := old(s).nextpid + 1, state := s.state,
                                          parent := s.parent, chan := s.chan)
                   && s.pid == old(s).pid[f := old(s).nextpid] && s.state == old(s).state[f := USED]
                   && s.parent == old(s).parent[f := NULL] && s.chan == old(s).chan[f := NoChan]
    {
      i := 0;
      while i < NPROC
        invariant 0 <= i <= NPROC && s == old(s) && FirstIn(s, UNUSED, 0) == FirstIn(s, UNUSED, i)
      {
        if s.state[i] == UNUSED {
          s := s.(pid := s.pid[i := s.nextpid], nextpid := s.nextpid + 1);
          s := s.(state := s.state[i := USED]);
          if !frames { return NULL; }
          s := s.(parent := s.parent[i := NULL], chan := s.chan[i := NoChan]);
          return;
        }
        i := i + 1;
      }
      return NULL;
    }

    /** fork, as far as the process table goes. */
    method DoFork(o: Outcome) returns (r: Result)
      requires Shape(s) && Enabled(s, Fork(o))
      modifies this
      ensures (s, r) == Step(old(s), Fork(o))
    {
      hide Woken, Exited, Reaped, Killed, Dispatch, Leaves, FirstIn, FirstZombie, FirstPid, HasKids;
      var p := s.current;
      var np := AllocProcess(o != NoFrame);
      if np == NULL { return Failed; }
      if o == CopyFails {
        s := s.(state := s.state[np := UNUSED]);
        assert s.state == old(s).state[np := UNUSED];
        return Failed;
      }
      s := s.(parent := s.parent[np := p]);
      s := s.(state := s.state[np := RUNNABLE]);
      assert s.state == old(s).state[np := RUNNABLE] && s.parent == old(s).parent[np := p];
      return Child(s.pid[np]);
    }

    /** user_init, as far as the process table goes. */
    method UserInit(frames: bool) returns (r: Result)
      requires Shape(s) && s.current == NULL
      modifies this
      ensures (s, r) == Step(old(s), Spawn(if frames then Forked else NoFrame))
    {
      hide Woken, Exited, Reaped, Killed, Dispatch, Leaves, FirstIn, FirstZombie, FirstPid, HasKids;
      var np := AllocProcess(frames);
      if np == NULL { return Failed; }
      s := s.(parent := s.parent[np := NULL]);
      s := s.(state := s.state[np := RUNNABLE]);
      assert s.state == old(s).state[np := RUNNABLE] && s.parent == old(s).parent[np := NULL];
      return Child(s.pid[np]);
    }
  }
}
