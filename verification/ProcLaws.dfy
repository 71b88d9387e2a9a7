/** What the calls of kernel/proc.c promise their callers, said of the fields of the process table
    and of whole runs, without the functions that the step machine is made of. */
module ProcLaws {
  import opened Proc

  /** No slot but `i` changes. */
  predicate OthersSame(s: Sched, s': Sched, i: nat)
    requires Shape(s) && Shape(s')
  {
    forall j {:trigger s'.state[j]} :: 0 <= j < 64 && j != i ==>
      && s'.state[j] == s.state[j] && s'.pid[j] == s.pid[j] && s'.parent[j] == s.parent[j]
      && s'.chan[j] == s.chan[j] && s'.code[j] == s.code[j] && s'.killed[j] == s.killed[j]
  }

  /** Slot `i` was the first UNUSED one and now has the next pid, the given parent and no channel;
      its exit code and its `killed` mark are what the slot had before. */
  predicate Born(s: Sched, s': Sched, i: nat, parent: nat)
    requires Shape(s) && Shape(s')
  {
    && i < 64 && s.state[i] == UNUSED && (forall j :: 0 <= j < i ==> s.state[j] != UNUSED)
    && s'.state[i] == RUNNABLE && s'.pid[i] == s.nextpid && s'.parent[i] == parent && s'.chan[i] == NoChan
    && s'.code[i] == s.code[i] && s'.killed[i] == s.killed[i] && OthersSame(s, s', i)
    && s'.nextpid == s.nextpid + 1 && s'.current == s.current && s'.scan == s.scan
  }

  /** fork yields a child exactly if a slot is UNUSED and its pages are there. The child is
      RUNNABLE, has the next pid and the caller as parent. A fork that fails makes nobody RUNNABLE
      and nobody's child: it leaves the first UNUSED slot as it was but for its pid, or USED. */
  lemma ForkMakes(s: Sched, o: Outcome)
    requires Inv(s) && s.current < 64
    ensures var (s', r) := Step(s, Fork(o));
            && (r.Child? <==> o == Forked && exists i :: 0 <= i < 64 && s.state[i] == UNUSED)
            && (r.Child? ==> r.pid == s.nextpid && exists i :: Born(s, s', i, s.current))
            && (!r.Child? ==>
                  && r == Failed && s'.current == s.current && s'.killed == s.killed
                  && forall i {:trigger s'.state[i]} :: 0 <= i < 64 ==>
                       (s'.state[i] == s.state[i] || (s.state[i] == UNUSED && s'.state[i] == USED))
                       && (s'.parent[i] == s.parent[i] || (s.state[i] == UNUSED && s'.parent[i] == 64)))
  {
    hide FirstPid, FirstZombie, Woken, OneRunning, PidsOk, NoLostWakeup;
    var i := FirstIn(s, UNUSED, 0);
    if i < 64 && o == Forked {
      assert Born(s, Step(s, Fork(o)).0, i, s.current);
    }
  }

  /** The first process has no parent. */
  lemma SpawnMakes(s: Sched, o: Outcome)
    requires Inv(s) && s.current == 64
    ensures var (s', r) := Step(s, Spawn(o));
            && (r.Child? <==> o == Forked && exists i :: 0 <= i < 64 && s.state[i] == UNUSED)
            && (r.Child? ==> r.pid == s.nextpid && exists i :: Born(s, s', i, 64))
  {
    hide FirstPid, FirstZombie, Woken, OneRunning, PidsOk, NoLostWakeup;
    var i := FirstIn(s, UNUSED, 0);
    if i < 64 && o == Forked {
      assert Born(s, Step(s, Spawn(o)).0, i, 64);
    }
  }

  /** Slot `i` is the first one with pid `v`. */
  ghost predicate Found(s: Sched, v: nat, i: nat)
    requires Shape(s)
  {
    i < 64 && s.pid[i] == v && forall j :: 0 <= j < i ==> s.pid[j] != v
  }

  /** Slot `i` is marked and, if it was asleep, RUNNABLE; its channel is cleared only when it runs. */
  predicate Marks(s: Sched, s': Sched, i: nat)
    requires Shape(s) && Shape(s')
  {
    && i < 64 && s'.killed[i] && (s.state[i] == SLEEPING ==> s'.state[i] == RUNNABLE)
    && (s.state[i] != SLEEPING ==> s'.state[i] == s.state[i])
    && s'.pid[i] == s.pid[i] && s'.parent[i] == s.parent[i] && s'.chan[i] == s.chan[i] && s'.code[i] == s.code[i]
    && OthersSame(s, s', i) && s'.current == s.current && s'.nextpid == s.nextpid && s'.scan == s.scan
  }

  /** kill marks the first slot with the pid. Without such a slot nothing happens. */
  lemma KillMarks(s: Sched, v: nat)
    requires Shape(s)
    ensures var (s', r) := Step(s, Kill(v));
            && (r == Done <==> exists i :: 0 <= i < 64 && s.pid[i] == v)
            && (r != Done ==> r == Failed && s' == s)
            && (r == Done ==> exists i :: Found(s, v, i) && Marks(s, s', i))
  {
    hide FirstIn, FirstZombie, Woken;
    var i := FirstPid(s, v, 0);
    if i < 64 {
      var s' := Step(s, Kill(v)).0;
      assert Found(s, v, i) && Marks(s, s', i);
    }
  }

  /** Slot `i`, a zombie child of the running process, is UNUSED afterwards, nobody's child and
      without pid. */
  predicate Buried(s: Sched, s': Sched, i: nat, r: Result)
    requires Shape(s) && Shape(s')
  {
    && i < 64 && s.parent[i] == s.current && s.state[i] == ZOMBIE && r == Collected(s.pid[i], s.code[i])
    && s'.state[i] == UNUSED && s'.pid[i] == 0 && s'.parent[i] == 64 && OthersSame(s, s', i)
    && s'.current == s.current
  }

  /** The running process sleeps on channel `c`; nobody else is touched. */
  predicate Sleeps(s: Sched, s': Sched, c: Chan)
    requires Shape(s) && Shape(s')
  {
    && s.current < 64 && s'.current == 64 && s'.state[s.current] == SLEEPING && s'.chan[s.current] == c
    && s'.pid == s.pid && s'.parent == s.parent && s'.killed == s.killed && s'.code == s.code
    && OthersSame(s, s', s.current)
  }

  /** wait collects if and only if a child is a zombie, returns -1 if and only if the caller has no
      children, and otherwise sleeps on the caller's own slot. */
  lemma WaitDecides(s: Sched)
    requires Inv(s) && s.current < 64
    ensures var (s', r) := Step(s, Wait);
            && (r.Collected? <==> exists i :: 0 <= i < 64 && s.parent[i] == s.current && s.state[i] == ZOMBIE)
            && (r == NoKids <==> forall i :: 0 <= i < 64 ==> s.parent[i] != s.current)
            && (r == NoKids ==> s' == s)
            && (r.Collected? ==> exists i :: Buried(s, s', i, r))
            && (!r.Collected? && r != NoKids ==> r == Slept && Sleeps(s, s', OnProc(s.current)))
  {
    hide FirstIn, FirstPid, Woken, OneRunning, PidsOk, NoLostWakeup;
    var z := FirstZombie(s, s.current, 0);
    if z < 64 {
      var s' := Step(s, Wait).0;
      assert Buried(s, s', z, Step(s, Wait).1) && s.parent[z] == s.current;
    }
  }

  /** exit leaves a zombie with the status, which keeps its pid and parent until it is collected. */
  lemma ExitLeaves(s: Sched, status: int)
    requires Inv(s) && s.current < 64
    ensures var s' := Step(s, Exit(status)).0; var p := s.current;
            && s'.current == 64 && s'.state[p] == ZOMBIE && s'.code[p] == status && s'.pid == s.pid
            && s'.parent == s.parent && s'.killed == s.killed && s'.nextpid == s.nextpid
            && forall j {:trigger s'.code[j]} :: 0 <= j < 64 && j != p ==> s'.code[j] == s.code[j]
  {
  }

  /** A process gives up the processor by yield, which leaves it RUNNABLE, or by sleep on a
      channel; nobody else is touched. */
  lemma GivesUp(s: Sched, c: Chan)
    requires Inv(s) && s.current < 64 && c.OnOther?
    ensures var s' := Step(s, Yield).0; var p := s.current;
            && s'.current == 64 && s'.state[p] == RUNNABLE && s'.chan[p] == s.chan[p] && s'.pid == s.pid
            && s'.parent == s.parent && s'.killed == s.killed && s'.code == s.code && OthersSame(s, s', p)
    ensures Sleeps(s, Step(s, Sleep(c)).0, c)
  {
  }

  /** The scheduler looks at the slots in turn, round and round, and runs the one it looks at if
      that is RUNNABLE; a process that resumes from sleep has no channel any more. */
  lemma ScanRuns(s: Sched)
    requires Inv(s) && s.current == 64
    ensures var (s', r) := Step(s, Scan);
            && s'.scan == (s.scan + 1) % 64 && OthersSame(s, s', s.scan)
            && (s.state[s.scan] == RUNNABLE ==>
                  r == Dispatched(s.scan) && s'.current == s.scan && s'.state[s.scan] == RUNNING
                  && s'.chan[s.scan] == NoChan && s'.pid == s.pid && s'.parent == s.parent)
            && (s.state[s.scan] != RUNNABLE ==> r == Nothing && s' == s.(scan := s'.scan))
  {
  }

  /** The reasons for which a sleeper of slot `i` gets up. */
  ghost predicate Roused(s: Sched, e: Event, i: nat)
    requires Shape(s) && Enabled(s, e) && i < 64
  {
    match e
    case Wakeup(c) => s.chan[i] == c
    case Exit(_) => s.parent[s.current] < 64 && s.chan[i] == OnProc(s.parent[s.current])
    case Kill(v) => Found(s, v, i)
    case _ => false
  }

  /** A sleeper becomes RUNNABLE by a wakeup of its channel, by the exit of a process whose parent
      it sleeps on, both of which clear its channel, or by kill, which does not, and by nothing else;
      otherwise it sleeps on, on the same channel. */
  lemma Sleeper(s: Sched, e: Event, i: nat)
    requires Inv(s) && Enabled(s, e) && i < 64 && s.state[i] == SLEEPING
    ensures var s' := Step(s, e).0;
            if Roused(s, e, i) then s'.state[i] == RUNNABLE && s'.chan[i] == if e.Kill? then s.chan[i] else NoChan
            else s'.state[i] == SLEEPING && s'.chan[i] == s.chan[i]
  {
    hide OneRunning, PidsOk, NoLostWakeup, FirstZombie, FirstIn, HasKids, Woken, Exited, Started, Leaves, Dispatch,
         Killed, Reaped;
    RunsCurrent(s);
    Others(s, e, i);
  }

  /** What a step does to a slot that it is not made for. */
  lemma Others(s: Sched, e: Event, i: nat)
    requires Shape(s) && Enabled(s, e) && i < 64 && s.state[i] != UNUSED && i != s.current
    requires e == Scan ==> i != s.scan || s.state[i] != RUNNABLE
    requires e == Wait ==> FirstZombie(s, s.current, 0) != i
    ensures var s', up := Step(s, e).0, s.state[i] == SLEEPING && Roused(s, e, i);
            && s'.pid[i] == s.pid[i] && s'.parent[i] == s.parent[i]
            && s'.state[i] == (if up then RUNNABLE else s.state[i])
            && s'.chan[i] == (if up && !e.Kill? then NoChan else s.chan[i])
  {
    hide FirstIn, FirstZombie, FirstPid, HasKids, Found, Woken, Exited, Started, Leaves, Dispatch, Killed, Reaped;
    match e
    case Scan => if i != s.scan { DispatchAt(s, i); }
    case Spawn(o) => NewAt(s, 64, o, i);
    case Yield => LeavesAt(s, RUNNABLE, s.chan[s.current], i);
    case Sleep(c) => LeavesAt(s, SLEEPING, c, i);
    case Wakeup(c) => WokenAt(s, c, i);
    case Exit(status) => ExitAt(s, status, i);
    case Wait =>
      ReapedAt(s, i);
      LeavesAt(s, SLEEPING, OnProc(s.current), i);
    case Kill(v) => KilledAt(s, v, i);
    case Fork(o) => NewAt(s, s.current, o, i);
  }

  lemma DispatchAt(s: Sched, i: nat)
    requires Shape(s) && i < 64 && i != s.scan
    ensures var s' := Dispatch(s); s'.state[i] == s.state[i] && s'.chan[i] == s.chan[i] && s'.pid == s.pid
                                   && s'.parent == s.parent
  {
  }

  lemma NewAt(s: Sched, parent: nat, o: Outcome, i: nat)
    requires Shape(s) && i < 64 && s.state[i] != UNUSED
    ensures var j := FirstIn(s, UNUSED, 0);
            j < 64 ==> forall o' {:trigger Started(s, j, parent, o')} :: o' == o || o' == NoFrame ==>
              var s' := Started(s, j, parent, o');
              && s'.state[i] == s.state[i] && s'.chan[i] == s.chan[i] && s'.pid[i] == s.pid[i]
              && s'.parent[i] == s.parent[i]
  {
    hide FirstIn;
  }

  lemma LeavesAt(s: Sched, st: PState, c: Chan, i: nat)
    requires Shape(s) && s.current < 64 && i < 64 && i != s.current
    ensures var s' := Leaves(s, st, c); s'.state[i] == s.state[i] && s'.chan[i] == s.chan[i] && s'.pid == s.pid
                                        && s'.parent == s.parent
  {
  }

  lemma ReapedAt(s: Sched, i: nat)
    requires Shape(s) && s.current < 64 && i < 64 && FirstZombie(s, s.current, 0) != i
    ensures var z := FirstZombie(s, s.current, 0);
            z < 64 ==> var s' := Reaped(s, z); s'.state[i] == s.state[i] && s'.chan[i] == s.chan[i]
                                               && s'.pid[i] == s.pid[i] && s'.parent[i] == s.parent[i]
  {
    hide FirstZombie;
  }

  lemma KilledAt(s: Sched, v: nat, i: nat)
    requires Shape(s) && i < 64
    ensures var j := FirstPid(s, v, 0);
            && (j == i <==> Found(s, v, i))
            && (j < 64 ==> var s' := Killed(s, j);
                           && s'.state[i] == (if i == j && s.state[i] == SLEEPING then RUNNABLE else s.state[i])
                           && s'.chan == s.chan && s'.pid == s.pid && s'.parent == s.parent)
  {
    hide FirstPid;
  }

  lemma WokenAt(s: Sched, c: Chan, i: nat)
    requires Shape(s) && i < 64
    ensures var s', up := Woken(s, c), s.state[i] == SLEEPING && s.chan[i] == c;
            && s'.state[i] == (if up then RUNNABLE else s.state[i]) && s'.chan[i] == (if up then NoChan else s.chan[i])
            && s'.pid == s.pid && s'.parent == s.parent
  {
  }

  /** What an exit does to another slot. */
  lemma ExitAt(s: Sched, status: int, i: nat)
    requires Shape(s) && s.current < 64 && i < 64 && i != s.current
    ensures var s', q := Exited(s, status), s.parent[s.current];
            var up := q < 64 && s.state[i] == SLEEPING && s.chan[i] == OnProc(q);
            && s'.state[i] == (if up then RUNNABLE else s.state[i]) && s'.chan[i] == (if up then NoChan else s.chan[i])
            && s'.pid == s.pid && s'.parent == s.parent
  {
  }

  /** Whoever is not asleep is neither woken nor put to sleep by others: only its own calls and the
      scheduler change its state, apart from a slot being filled and a zombie being collected. */
  lemma Undisturbed(s: Sched, e: Event, i: nat)
    requires Inv(s) && Enabled(s, e) && i < 64 && i != s.current && s.state[i] != SLEEPING
    requires s.state[i] == RUNNABLE ==> !(e == Scan && s.scan == i)
    ensures var s' := Step(s, e).0;
            || (s'.state[i] == s.state[i] && s'.chan[i] == s.chan[i])
            || (s.state[i] == UNUSED && (e.Fork? || e.Spawn?))
            || (s.state[i] == ZOMBIE && e == Wait && s.parent[i] == s.current && s'.state[i] == UNUSED)
  {
    hide OneRunning, PidsOk, NoLostWakeup, HasKids, FirstIn, FirstZombie, FirstPid, Woken, Exited, Leaves, Killed,
         Dispatch;
    if s.state[i] != UNUSED && !(e == Wait && FirstZombie(s, s.current, 0) == i) {
      Others(s, e, i);
    } else if s.state[i] == UNUSED && !e.Fork? && !e.Spawn? {
      Vacant(s, e, i);
    }
  }

  /** Only being filled changes a free slot. */
  lemma Vacant(s: Sched, e: Event, i: nat)
    requires Shape(s) && Enabled(s, e) && i < 64 && s.state[i] == UNUSED && i != s.current && !e.Fork? && !e.Spawn?
    ensures Step(s, e).0.state[i] == UNUSED && Step(s, e).0.chan[i] == s.chan[i]
  {
    hide FirstIn, FirstZombie, HasKids, Woken, Exited, Started;
    match e
    case Wakeup(c) => WokenAt(s, c, i);
    case Exit(status) => ExitAt(s, status, i);
    case _ =>
  }

  // Parents and children over whole runs.

  /** Step `x` is a fork by the process of slot `p` that yields a child with pid `v`. */
  ghost predicate Forks(ss: seq<Sched>, es: seq<Event>, x: nat, p: nat, v: nat)
    requires IsRun(ss, es)
  {
    x < |es| && Shape(ss[x]) && es[x].Fork? && ss[x].current == p && ResultAt(ss, es, x) == Child(v)
  }

  /** A wait between `x` and `n` collected pid `v`. */
  ghost predicate Taken(ss: seq<Sched>, es: seq<Event>, x: nat, n: nat, v: nat)
    requires IsRun(ss, es)
  {
    exists k {:trigger ResultAt(ss, es, k)} ::
      x < k < n && k < |es| && ResultAt(ss, es, k).Collected? && ResultAt(ss, es, k).pid == v
  }

  /** Slot `i` has a process with pid `v` and parent `p`. */
  ghost predicate KidAt(s: Sched, i: nat, p: nat, v: nat) {
    Shape(s) && i < 64 && s.state[i] != UNUSED && s.pid[i] == v && s.parent[i] == p
  }

  /** A slot that was not started keeps its pid and parent, unless it is collected, and then it has
      no parent. */
  ghost predicate Orphans(s: Sched) {
    Shape(s) && forall i {:trigger s.parent[i]} :: 0 <= i < 64 && (s.state[i] == UNUSED || s.state[i] == USED) ==>
                  s.parent[i] == 64
  }

  lemma OrphansStep(s: Sched, e: Event)
    requires Inv(s) && Enabled(s, e) && Orphans(s)
    ensures Orphans(Step(s, e).0)
  {
    hide OneRunning, PidsOk, NoLostWakeup, FirstZombie, FirstPid, HasKids;
    RunsCurrent(s);
  }

  lemma {:induction false} OrphansRun(ss: seq<Sched>, es: seq<Event>, n: nat)
    requires IsRun(ss, es) && n <= |es|
    ensures Orphans(ss[n])
  {
    hide Step, OneRunning, PidsOk, NoLostWakeup;
    if n > 0 {
      OrphansRun(ss, es, n - 1);
      RunInv(ss, es, n - 1);
      assert ss[n] == Step(ss[n - 1], es[n - 1]).0;
      hide Orphans;
      OrphansStep(ss[n - 1], es[n - 1]);
    }
  }

  /** A child stays a child until its pid is collected. */
  lemma KidStays(s: Sched, e: Event, i: nat, p: nat, v: nat)
    requires Inv(s) && Enabled(s, e) && KidAt(s, i, p, v)
    requires var r := Step(s, e).1; !(r.Collected? && r.pid == v)
    ensures KidAt(Step(s, e).0, i, p, v)
  {
    hide OneRunning, PidsOk, NoLostWakeup, FirstIn, FirstPid, FirstZombie, HasKids, Woken, Exited, Started, Leaves,
         Dispatch, Killed, Reaped;
    RunsCurrent(s);
    if i == s.current {
      OwnStep(s, e);
    } else if !(e == Scan && i == s.scan) && !(e == Wait && FirstZombie(s, s.current, 0) == i) {
      Others(s, e, i);
    } else if e == Scan {
      Picked(s);
    }
  }

  /** Whatever the running process does, it keeps its pid and parent, and its slot is in use. */
  lemma OwnStep(s: Sched, e: Event)
    requires Shape(s) && Enabled(s, e) && s.current < 64 && s.state[s.current] == RUNNING
    ensures var s', i := Step(s, e).0, s.current;
            s'.state[i] != UNUSED && s'.pid[i] == s.pid[i] && s'.parent[i] == s.parent[i]
  {
    hide FirstIn, FirstPid, FirstZombie, HasKids, Woken;
    match e
    case Wakeup(c) => WokenAt(s, c, s.current);
    case Exit(status) => ExitedAt(s, status);
    case _ =>
  }

  lemma ExitedAt(s: Sched, status: int)
    requires Shape(s) && s.current < 64
    ensures Exited(s, status).state[s.current] == ZOMBIE && Exited(s, status).pid == s.pid
            && Exited(s, status).parent == s.parent
  {
  }

  lemma Picked(s: Sched)
    requires Shape(s) && s.current == 64
    ensures var s', i := Step(s, Scan).0, s.scan;
            (s.state[i] != UNUSED ==> s'.state[i] != UNUSED) && s'.pid == s.pid && s'.parent == s.parent
  {
  }

  lemma {:induction false} KidLater(ss: seq<Sched>, es: seq<Event>, a: nat, n: nat, i: nat, p: nat, v: nat)
    requires IsRun(ss, es) && a <= n <= |es| && KidAt(ss[a], i, p, v)
    requires forall k {:trigger ResultAt(ss, es, k)} ::
               a <= k < n ==> !(ResultAt(ss, es, k).Collected? && ResultAt(ss, es, k).pid == v)
    ensures KidAt(ss[n], i, p, v)
    decreases n - a
  {
    hide Step, OneRunning, PidsOk, NoLostWakeup, KidAt;
    if a < n {
      RunInv(ss, es, a);
      assert Enabled(ss[a], es[a]) && ss[a + 1] == Step(ss[a], es[a]).0;
      assert ResultAt(ss, es, a) == Step(ss[a], es[a]).1;
      KidStays(ss[a], es[a], i, p, v);
      KidLater(ss, es, a + 1, n, i, p, v);
    }
  }

  /** A forked child is there until a wait collects its pid. */
  lemma KidThere(ss: seq<Sched>, es: seq<Event>, x: nat, n: nat, p: nat, v: nat) returns (i: nat)
    requires IsRun(ss, es) && x < n <= |es| && Forks(ss, es, x, p, v) && !Taken(ss, es, x, n, v)
    ensures KidAt(ss[n], i, p, v)
  {
    hide Step, OneRunning, PidsOk, NoLostWakeup;
    RunInv(ss, es, x);
    assert Enabled(ss[x], es[x]) && ss[x + 1] == Step(ss[x], es[x]).0;
    ForkMakes(ss[x], es[x].o);
    i :| Born(ss[x], ss[x + 1], i, p);
    KidLater(ss, es, x + 1, n, i, p, v);
  }

  /** A slot gets a parent by a fork and by nothing else. */
  lemma KidMade(s: Sched, e: Event, i: nat)
    requires Inv(s) && Orphans(s) && Enabled(s, e) && i < 64
    ensures var (s', r) := Step(s, e);
            s'.parent[i] < 64 && !KidAt(s, i, s'.parent[i], s'.pid[i]) ==>
              e.Fork? && s.current == s'.parent[i] && r == Child(s'.pid[i])
  {
    hide OneRunning, PidsOk, NoLostWakeup, FirstZombie, FirstPid, HasKids;
    if e.Exit? || e.Wakeup? || e.Kill? {
      assert Step(s, e).0.parent == s.parent && Step(s, e).0.pid == s.pid;
    }
  }

  /** Whoever has a parent was forked by it, and nobody has collected it since. */
  lemma {:induction false} KidForked(ss: seq<Sched>, es: seq<Event>, n: nat, i: nat) returns (x: nat)
    requires IsRun(ss, es) && n <= |es| && i < 64 && Shape(ss[n]) && ss[n].parent[i] < 64
    ensures x < n && Forks(ss, es, x, ss[n].parent[i], ss[n].pid[i]) && !Taken(ss, es, x, n, ss[n].pid[i])
  {
    hide Step, OneRunning, PidsOk, NoLostWakeup;
    if n > 0 {
      RunInv(ss, es, n - 1);
      OrphansRun(ss, es, n - 1);
      assert Enabled(ss[n - 1], es[n - 1]) && ss[n] == Step(ss[n - 1], es[n - 1]).0;
      if KidAt(ss[n - 1], i, ss[n].parent[i], ss[n].pid[i]) {
        x := KidForked(ss, es, n - 1, i);
        StillThere(ss, es, n, i);
      } else {
        KidMade(ss[n - 1], es[n - 1], i);
        x := n - 1;
      }
    }
  }

  /** What a step collects has no parent afterwards. */
  lemma StillThere(ss: seq<Sched>, es: seq<Event>, n: nat, i: nat)
    requires IsRun(ss, es) && 0 < n <= |es| && i < 64 && Shape(ss[n - 1]) && Shape(ss[n]) && Inv(ss[n - 1])
    requires ss[n].parent[i] < 64 && KidAt(ss[n - 1], i, ss[n].parent[i], ss[n].pid[i])
    ensures var r := ResultAt(ss, es, n - 1); !(r.Collected? && r.pid == ss[n].pid[i])
  {
    hide OneRunning, NoLostWakeup, FirstPid, FirstIn, HasKids, Woken, Exited, Started, Killed, Leaves, Dispatch;
    assert Enabled(ss[n - 1], es[n - 1]) && ss[n] == Step(ss[n - 1], es[n - 1]).0;
  }

  /** In any run, wait returns -1 if and only if every child that the calling slot ever forked has
      been collected. */
  lemma NoKidsIff(ss: seq<Sched>, es: seq<Event>, n: nat)
    requires IsRun(ss, es) && n < |es| && es[n] == Wait && Shape(ss[n])
    ensures ResultAt(ss, es, n) == NoKids <==>
            forall x, v {:trigger Forks(ss, es, x, ss[n].current, v)} ::
              0 <= x < n && Forks(ss, es, x, ss[n].current, v) ==> Taken(ss, es, x, n, v)
  {
    hide Step, OneRunning, PidsOk, NoLostWakeup, Forks, Taken;
    RunInv(ss, es, n);
    assert Enabled(ss[n], es[n]);
    WaitDecides(ss[n]);
    var p := ss[n].current;
    forall x, v | 0 <= x < n && Forks(ss, es, x, p, v) && !Taken(ss, es, x, n, v)
      ensures ResultAt(ss, es, n) != NoKids
    {
      var i := KidThere(ss, es, x, n, p, v);
    }
    if ResultAt(ss, es, n) != NoKids {
      var i :| 0 <= i < 64 && ss[n].parent[i] == p;
      var x := KidForked(ss, es, n, i);
      assert Forks(ss, es, x, p, ss[n].pid[i]);
    }
  }

  // Marks of kill over whole runs.

  /** Step `x` is a kill that finds slot `i`. */
  ghost predicate Kills(ss: seq<Sched>, es: seq<Event>, x: nat, i: nat)
    requires IsRun(ss, es)
  {
    x < |es| && Shape(ss[x]) && es[x].Kill? && Found(ss[x], es[x].victim, i)
  }

  lemma MarkStep(s: Sched, e: Event, i: nat)
    requires Shape(s) && Enabled(s, e) && i < 64
    ensures Step(s, e).0.killed[i] <==> s.killed[i] || (e.Kill? && Found(s, e.victim, i))
  {
    hide FirstZombie, FirstIn, HasKids;
  }

  /** In any run a slot is marked if and only if some kill has ever found it: a new process in the
      slot starts out with the mark of its predecessors. */
  lemma {:induction false} MarkedIff(ss: seq<Sched>, es: seq<Event>, n: nat, i: nat)
    requires IsRun(ss, es) && n <= |es| && i < 64 && Shape(ss[n])
    ensures ss[n].killed[i] <==> exists x :: 0 <= x < n && Kills(ss, es, x, i)
  {
    hide Step, OneRunning, PidsOk, NoLostWakeup;
    if n > 0 {
      RunInv(ss, es, n - 1);
      assert Enabled(ss[n - 1], es[n - 1]) && ss[n] == Step(ss[n - 1], es[n - 1]).0;
      MarkedIff(ss, es, n - 1, i);
      MarkStep(ss[n - 1], es[n - 1], i);
      assert Kills(ss, es, n - 1, i) <==> es[n - 1].Kill? && Found(ss[n - 1], es[n - 1].victim, i);
    }
  }

  /** A forked child is born killed if and only if a kill ever found its slot. */
  lemma BornKilledIff(ss: seq<Sched>, es: seq<Event>, x: nat, p: nat, v: nat) returns (i: nat)
    requires IsRun(ss, es) && Forks(ss, es, x, p, v)
    ensures KidAt(ss[x + 1], i, p, v)
    ensures ss[x + 1].killed[i] <==> exists y :: 0 <= y < x && Kills(ss, es, y, i)
  {
    hide Step, OneRunning, PidsOk, NoLostWakeup;
    RunInv(ss, es, x);
    assert Enabled(ss[x], es[x]) && ss[x + 1] == Step(ss[x], es[x]).0;
    ForkMakes(ss[x], es[x].o);
    i :| Born(ss[x], ss[x + 1], i, p);
    MarkedIff(ss, es, x, i);
  }

  /** kill(0) finds the first slot without a process: the first process calls it and then forks, and
      its child is born killed. */
  lemma KillZero() returns (ss: seq<Sched>, es: seq<Event>)
    ensures IsRun(ss, es) && es == [Spawn(Outcome.Forked), Scan, Kill(0), Fork(Outcome.Forked)]
    ensures ResultAt(ss, es, 3) == Child(2) && KidAt(ss[4], 1, 0, 2) && ss[4].killed[1]
  {
    es := [Spawn(Outcome.Forked), Scan, Kill(0), Fork(Outcome.Forked)];
    var s0 := Init();
    var s1 := Step(s0, es[0]).0;
    assert s1.state[0] == RUNNABLE && s1.pid[0] == 1 && s1.pid[1] == 0 && s1.current == 64 && s1.scan == 0;
    var s2 := Step(s1, es[1]).0;
    assert s2.current == 0 && s2.pid == s1.pid && s2.state[1] == UNUSED && s2.nextpid == 2;
    var s3 := Step(s2, es[2]).0;
    assert FirstPid(s2, 0, 0) == 1 && s3.killed[1] && s3.current == 0;
    var s4 := Step(s3, es[3]).0;
    assert FirstIn(s3, UNUSED, 0) == 1 && s4.killed[1];
    ss := [s0, s1, s2, s3, s4];
  }
}
