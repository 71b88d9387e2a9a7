/** What kernel/log.c does to the disk, write by write, and why a crash between any two
    writes is harmless. A disk state is the sequence of its blocks. */
module LogSpec {
  import opened Bytes

  const HDRMAX := 30   // capacity of logheader.block
  const LOGOP := 5     // blocks reserved per operation

  /** The log region: the header block `start` and `size - 1` data blocks after it. No block
      below `low` is ever logged. */
  datatype Geometry = Geometry(start: nat, size: nat, low: nat)

  predicate InLog(g: Geometry, bn: nat) {
    g.start <= bn < g.start + g.size
  }

  ghost predicate GeoOk(g: Geometry, n: nat) {
    1 <= g.start && 1 <= g.low && 2 * LOGOP <= g.size <= HDRMAX && g.start + g.size <= n <= 0x1_0000_0000
  }

  /** The header block: a count, then block numbers, as 4-byte words. */
  function Count(h: Block): nat {
    Get(h, 0, 4)
  }

  function Entry(h: Block, i: nat): nat
    requires i < HDRMAX
  {
    Get(h, 4 + 4 * i, 4)
  }

  function Entries(h: Block): (l: seq<nat>)
    requires Count(h) <= HDRMAX
    ensures |l| == Count(h)
  {
    seq(Count(h), i requires 0 <= i < Count(h) => Entry(h, i))
  }

  ghost predicate Distinct(l: seq<nat>) {
    forall i, j :: 0 <= i < j < |l| ==> l[i] != l[j]
  }

  /** A block list that the log may carry on a disk of `n` blocks. */
  ghost predicate Loggable(l: seq<nat>, g: Geometry, n: nat) {
    && |l| + LOGOP <= g.size
    && Distinct(l)
    && (forall i :: 0 <= i < |l| ==> g.low <= l[i] < n && !InLog(g, l[i]))
  }

  /** The log grows by at most one block. */
  function Logged(list: seq<nat>, bn: nat): seq<nat> {
    if bn in list then list else list + [bn]
  }

  lemma LoggedLoggable(l: seq<nat>, g: Geometry, n: nat, bn: nat)
    requires Loggable(l, g, n) && g.low <= bn < n && !InLog(g, bn) && |Logged(l, bn)| + LOGOP <= g.size
    ensures Loggable(Logged(l, bn), g, n)
  {
  }

  ghost predicate WfDisk(d: seq<Block>, g: Geometry) {
    && GeoOk(g, |d|)
    && Count(d[g.start]) <= HDRMAX
    && Loggable(Entries(d[g.start]), g, |d|)
  }

  function IndexOf(l: seq<nat>, x: nat): (i: nat)
    requires x in l
    ensures i < |l| && l[i] == x
  {
    if l[0] == x then 0 else 1 + IndexOf(l[1..], x)
  }

  /** The home blocks, with the log region blanked out. */
  ghost function Mask(d: seq<Block>, g: Geometry): (m: seq<Block>)
    ensures |m| == |d|
  {
    seq(|d|, i requires 0 <= i < |d| => if InLog(g, i) then Zeros(BSIZE) else d[i])
  }

  lemma MaskUpdate(d: seq<Block>, g: Geometry, bn: nat, data: Block)
    requires bn < |d| && !InLog(g, bn)
    ensures Mask(d[bn := data], g) == Mask(d, g)[bn := data]
    ensures Mask(d, g)[bn] == d[bn]
  {
  }

  /** What the disk stands for: the home blocks once a committed log has been replayed. */
  ghost function Home(d: seq<Block>, g: Geometry): (m: seq<Block>)
    requires WfDisk(d, g)
    ensures |m| == |d|
  {
    var l := Entries(d[g.start]);
    seq(|d|, i requires 0 <= i < |d| =>
      if InLog(g, i) then Zeros(BSIZE) else if i in l then d[g.start + 1 + IndexOf(l, i)] else d[i])
  }

  lemma GeoLow(g: Geometry, n: nat)
    requires GeoOk(g, n)
    ensures 1 <= g.low
  {
  }

  /** A block that is never logged is on the disk as it is. */
  lemma HomeLow(d: seq<Block>, g: Geometry, bn: nat)
    requires WfDisk(d, g) && bn < g.low && bn < |d| && !InLog(g, bn)
    ensures Home(d, g)[bn] == d[bn]
  {
  }

  lemma EmptyLog(d: seq<Block>, g: Geometry)
    requires GeoOk(g, |d|) && Count(d[g.start]) == 0
    ensures WfDisk(d, g) && Home(d, g) == Mask(d, g)
  {
    assert Entries(d[g.start]) == [];
  }

  /** The header with only its count set to zero. */
  function Cleared(h: Block): Block {
    Put(h, 0, 4, 0)
  }

  /** The header after write_head: the count, then the entries one by one. */
  function WithEntries(h: Block, l: seq<nat>, k: nat): Block
    requires k <= |l| <= HDRMAX
  {
    if k == 0 then Put(h, 0, 4, |l|) else Put(WithEntries(h, l, k - 1), 4 * k, 4, l[k - 1])
  }

  /** One write of install_trans: log slot `k` goes home. */
  ghost function InstallWrite(d: seq<Block>, g: Geometry, l: seq<nat>, k: nat): seq<Block>
    requires GeoOk(g, |d|) && Loggable(l, g, |d|) && k < |l|
  {
    d[l[k] := d[g.start + 1 + k]]
  }

  /** One write of write_log: the `k`-th logged block goes to slot `k`. */
  ghost function LogWrite(d: seq<Block>, g: Geometry, l: seq<nat>, view: seq<Block>, k: nat): seq<Block>
    requires GeoOk(g, |d|) && Loggable(l, g, |d|) && k < |l| && |view| == |d|
  {
    d[g.start + 1 + k := view[l[k]]]
  }

  /** The disk states of install_trans from entry `k` on. */
  ghost function InstallTrace(d: seq<Block>, g: Geometry, l: seq<nat>, k: nat): (t: seq<seq<Block>>)
    requires GeoOk(g, |d|) && Loggable(l, g, |d|) && k <= |l|
    ensures |t| == |l| - k && forall i :: 0 <= i < |t| ==> |t[i]| == |d|
    decreases |l| - k
  {
    if k == |l| then []
    else
      var d' := InstallWrite(d, g, l, k);
      [d'] + InstallTrace(d', g, l, k + 1)
  }

  /** The disk states of write_log from entry `k` on. */
  ghost function LogTrace(d: seq<Block>, g: Geometry, l: seq<nat>, view: seq<Block>, k: nat): (t: seq<seq<Block>>)
    requires GeoOk(g, |d|) && Loggable(l, g, |d|) && k <= |l| && |view| == |d|
    ensures |t| == |l| - k && forall i :: 0 <= i < |t| ==> |t[i]| == |d|
    decreases |l| - k
  {
    if k == |l| then []
    else
      var d' := LogWrite(d, g, l, view, k);
      [d'] + LogTrace(d', g, l, view, k + 1)
  }

  ghost function Last(d: seq<Block>, t: seq<seq<Block>>): seq<Block> {
    if t == [] then d else t[|t| - 1]
  }

  /** Performing the first write of a trace leaves the rest to do. */
  lemma TraceStep(h: seq<seq<Block>>, d: seq<Block>, d': seq<Block>, rest: seq<seq<Block>>)
    ensures (h + [d']) + rest == h + ([d'] + rest)
    ensures Last(d', rest) == Last(d, [d'] + rest)
  {
  }

  /** `h` is the history so far, `d` the disk now, and the trace `t` is still to come. */
  datatype Run = Run(h: seq<seq<Block>>, d: seq<Block>)

  ghost function After(r: Run, t: seq<seq<Block>>): Run {
    Run(r.h + t, Last(r.d, t))
  }

  lemma AfterAfter(r: Run, t: seq<seq<Block>>, u: seq<seq<Block>>)
    ensures After(After(r, t), u) == After(r, t + u)
  {
    assert (r.h + t) + u == r.h + (t + u);
  }

  lemma InstallStep(h: seq<seq<Block>>, d: seq<Block>, g: Geometry, l: seq<nat>, k: nat)
    requires GeoOk(g, |d|) && Loggable(l, g, |d|) && k < |l|
    ensures var d' := InstallWrite(d, g, l, k);
            After(Run(h, d), InstallTrace(d, g, l, k)) == After(Run(h + [d'], d'), InstallTrace(d', g, l, k + 1))
  {
    var d' := InstallWrite(d, g, l, k);
    TraceStep(h, d, d', InstallTrace(d', g, l, k + 1));
  }

  lemma LogStep(h: seq<seq<Block>>, d: seq<Block>, g: Geometry, l: seq<nat>, view: seq<Block>, k: nat)
    requires GeoOk(g, |d|) && Loggable(l, g, |d|) && k < |l| && |view| == |d|
    ensures var d' := LogWrite(d, g, l, view, k);
            After(Run(h, d), LogTrace(d, g, l, view, k)) == After(Run(h + [d'], d'), LogTrace(d', g, l, view, k + 1))
  {
    var d' := LogWrite(d, g, l, view, k);
    TraceStep(h, d, d', LogTrace(d', g, l, view, k + 1));
  }

  /** recover_from_log: nothing, or install everything and clear the header. */
  ghost function RecoveryTrace(d: seq<Block>, g: Geometry): seq<seq<Block>>
    requires WfDisk(d, g)
  {
    var l := Entries(d[g.start]);
    if l == [] then []
    else
      InstallTrace(d, g, l, 0) + [Done(d, g, l)]
  }

  /** commit: log the blocks, write the header, install, clear the header. */
  ghost function CommitTrace(d: seq<Block>, g: Geometry, l: seq<nat>, view: seq<Block>): seq<seq<Block>>
    requires GeoOk(g, |d|) && Loggable(l, g, |d|) && |view| == |d|
  {
    if l == [] then []
    else
      var d1 := CommitHead(d, g, l, view);
      LogTrace(d, g, l, view, 0) + [d1] + InstallTrace(d1, g, l, 0) + [Done(d1, g, l)]
  }

  /** The disk after the header write: the commit point. */
  ghost function CommitHead(d: seq<Block>, g: Geometry, l: seq<nat>, view: seq<Block>): (d': seq<Block>)
    requires GeoOk(g, |d|) && Loggable(l, g, |d|) && |view| == |d|
    ensures |d'| == |d|
  {
    Last(d, LogTrace(d, g, l, view, 0))[g.start := WithEntries(d[g.start], l, |l|)]
  }

  /** The disk once the list `l` is installed and the header cleared. */
  ghost function Done(d: seq<Block>, g: Geometry, l: seq<nat>): seq<Block>
    requires GeoOk(g, |d|) && Loggable(l, g, |d|)
  {
    Last(d, InstallTrace(d, g, l, 0))[g.start := Cleared(d[g.start])]
  }

  lemma {:induction false} WithEntriesAt(h: Block, l: seq<nat>, k: nat)
    requires k <= |l| <= HDRMAX && forall i :: 0 <= i < |l| ==> l[i] < 0x1_0000_0000
    ensures Count(WithEntries(h, l, k)) == |l|
    ensures forall i :: 0 <= i < k ==> Entry(WithEntries(h, l, k), i) == l[i]
  {
    hide Dec, Enc, Overlay;
    assert Pow256(4) == 0x1_0000_0000;
    if k == 0 {
      GetPutSame(h, 0, 4, |l|);
    } else {
      WithEntriesAt(h, l, k - 1);
      var p := WithEntries(h, l, k - 1);
      GetPutSame(p, 4 * k, 4, l[k - 1]);
      GetOverlayOther(p, 4 * k, Enc(l[k - 1], 4), 0, 4);
      forall i | 0 <= i < k - 1 ensures Entry(WithEntries(h, l, k), i) == l[i] {
        GetOverlayOther(p, 4 * k, Enc(l[k - 1], 4), 4 + 4 * i, 4);
      }
    }
  }

  /** write_head then read_head: the list comes back. */
  lemma HeaderRoundTrip(h: Block, l: seq<nat>)
    requires |l| <= HDRMAX && forall i :: 0 <= i < |l| ==> l[i] < 0x1_0000_0000
    ensures Count(WithEntries(h, l, |l|)) == |l| && Entries(WithEntries(h, l, |l|)) == l
  {
    WithEntriesAt(h, l, |l|);
  }

  lemma ClearedCount(h: Block)
    ensures Count(Cleared(h)) == 0 && Entries(Cleared(h)) == []
  {
    GetPutSame(h, 0, 4, 0);
  }

  /** The i-th state of an installation: entries k..k+i are home, all else is as before. */
  lemma {:induction false} InstallAt(d: seq<Block>, g: Geometry, l: seq<nat>, k: nat, i: nat)
    requires GeoOk(g, |d|) && Loggable(l, g, |d|) && k + i < |l|
    ensures var t := InstallTrace(d, g, l, k);
            && (forall j :: k <= j <= k + i ==> t[i][l[j]] == d[g.start + 1 + j])
            && (forall bn :: 0 <= bn < |d| && (forall j :: k <= j <= k + i ==> l[j] != bn) ==> t[i][bn] == d[bn])
    decreases i
  {
    if i > 0 {
      var d' := InstallWrite(d, g, l, k);
      InstallAt(d', g, l, k + 1, i - 1);
      var t, t' := InstallTrace(d, g, l, k), InstallTrace(d', g, l, k + 1);
      assert t[i] == t'[i - 1];
      assert t'[i - 1][l[k]] == d'[l[k]];
    }
  }

  /** The i-th state of write_log: data blocks k..k+i hold the view, all else is as before. */
  lemma {:induction false} LogAt(d: seq<Block>, g: Geometry, l: seq<nat>, view: seq<Block>, k: nat, i: nat)
    requires GeoOk(g, |d|) && Loggable(l, g, |d|) && k + i < |l| && |view| == |d|
    ensures var t := LogTrace(d, g, l, view, k);
            && (forall j :: k <= j <= k + i ==> t[i][g.start + 1 + j] == view[l[j]])
            && (forall bn :: 0 <= bn < |d| && !(g.start + 1 + k <= bn <= g.start + 1 + k + i) ==> t[i][bn] == d[bn])
    decreases i
  {
    if i > 0 {
      var d' := LogWrite(d, g, l, view, k);
      LogAt(d', g, l, view, k + 1, i - 1);
      assert LogTrace(d, g, l, view, k)[i] == LogTrace(d', g, l, view, k + 1)[i - 1];
    }
  }

  /** Disks with the same log and the same unlogged home blocks stand for the same contents. */
  lemma HomeSame(d: seq<Block>, d': seq<Block>, g: Geometry)
    requires WfDisk(d, g) && |d'| == |d|
    requires forall bn :: 0 <= bn < |d| && (InLog(g, bn) || bn !in Entries(d[g.start])) ==> d'[bn] == d[bn]
    ensures WfDisk(d', g) && Home(d', g) == Home(d, g)
  {
    assert InLog(g, g.start);
    var l := Entries(d[g.start]);
    forall i | 0 <= i < |d| ensures Home(d', g)[i] == Home(d, g)[i] {
      if i in l { assert InLog(g, g.start + 1 + IndexOf(l, i)); }
    }
  }

  lemma InstallSafe(d: seq<Block>, g: Geometry, i: nat)
    requires WfDisk(d, g) && i < |Entries(d[g.start])|
    ensures var t := InstallTrace(d, g, Entries(d[g.start]), 0);
            WfDisk(t[i], g) && Home(t[i], g) == Home(d, g) && t[i][g.start] == d[g.start]
  {
    var l := Entries(d[g.start]);
    InstallAt(d, g, l, 0, i);
    assert InLog(g, g.start);
    HomeSame(d, InstallTrace(d, g, l, 0)[i], g);
  }

  /** What a disk stands for, from its log and its unlogged home blocks. */
  lemma HomeOf(d: seq<Block>, g: Geometry, l: seq<nat>, m: seq<Block>)
    requires WfDisk(d, g) && Entries(d[g.start]) == l && |m| == |d|
    requires forall j :: 0 <= j < |l| ==> d[g.start + 1 + j] == m[l[j]]
    requires forall bn :: 0 <= bn < |d| && !InLog(g, bn) && bn !in l ==> d[bn] == m[bn]
    ensures Home(d, g) == Mask(m, g)
  {
    forall bn | 0 <= bn < |d| ensures Home(d, g)[bn] == Mask(m, g)[bn] {
      HomeAt(d, g, l, m, bn);
    }
  }

  lemma HomeAt(d: seq<Block>, g: Geometry, l: seq<nat>, m: seq<Block>, bn: nat)
    requires WfDisk(d, g) && Entries(d[g.start]) == l && |m| == |d| && bn < |d|
    requires forall j :: 0 <= j < |l| ==> d[g.start + 1 + j] == m[l[j]]
    requires !InLog(g, bn) && bn !in l ==> d[bn] == m[bn]
    ensures Home(d, g)[bn] == Mask(m, g)[bn]
  {
    if !InLog(g, bn) && bn in l {
      var j := IndexOf(l, bn);
      assert d[g.start + 1 + j] == m[l[j]];
    }
  }

  /** At the end of an installation every home block is in place. */
  lemma Installed(d: seq<Block>, g: Geometry)
    requires WfDisk(d, g)
    ensures var e := Last(d, InstallTrace(d, g, Entries(d[g.start]), 0));
            |e| == |d| && Mask(e, g) == Home(d, g)
  {
    var l := Entries(d[g.start]);
    if l != [] { InstallAt(d, g, l, 0, |l| - 1); }
    var e := Last(d, InstallTrace(d, g, l, 0));
    HomeOf(d, g, l, e);
  }

  /** Clearing the header once everything is installed. */
  lemma ClearSafe(d: seq<Block>, g: Geometry)
    requires WfDisk(d, g)
    ensures var c := Done(d, g, Entries(d[g.start]));
            && WfDisk(c, g) && Count(c[g.start]) == 0
            && Mask(c, g) == Home(d, g) && Home(c, g) == Home(d, g)
  {
    hide InstallTrace, Get;
    Installed(d, g);
    ClearedCount(d[g.start]);
    var e := Last(d, InstallTrace(d, g, Entries(d[g.start]), 0));
    var c := e[g.start := Cleared(d[g.start])];
    assert Mask(c, g) == Mask(e, g);
    HomeOf(c, g, [], c);
  }

  /** Recovery never changes what the disk stands for, at any of its writes, and it ends with
      an empty log. */
  lemma RecoverySafe(d: seq<Block>, g: Geometry)
    requires WfDisk(d, g)
    ensures forall d' :: d' in RecoveryTrace(d, g) ==> WfDisk(d', g) && Home(d', g) == Home(d, g)
    ensures var e := Last(d, RecoveryTrace(d, g));
            WfDisk(e, g) && Count(e[g.start]) == 0 && Mask(e, g) == Home(d, g)
  {
    var l := Entries(d[g.start]);
    ClearSafe(d, g);
    forall i | 0 <= i < |l| ensures var t := InstallTrace(d, g, l, 0); WfDisk(t[i], g) && Home(t[i], g) == Home(d, g) {
      InstallSafe(d, g, i);
    }
  }

  /** `d'` is where a recovery started on `d` is cut: after none, some or all of its writes. */
  ghost predicate CutRecovery(d: seq<Block>, d': seq<Block>, g: Geometry) {
    WfDisk(d, g) && (d' == d || d' in RecoveryTrace(d, g))
  }

  /** A chain of recoveries, each cut after any number of its disk writes. */
  ghost predicate CutRecoveries(ds: seq<seq<Block>>, g: Geometry) {
    |ds| > 0 && WfDisk(ds[0], g) && forall i {:trigger ds[i]} :: 0 < i < |ds| ==> CutRecovery(ds[i - 1], ds[i], g)
  }

  lemma {:induction false} CutRecoveriesSafe(ds: seq<seq<Block>>, g: Geometry, k: nat)
    requires CutRecoveries(ds, g) && k < |ds|
    ensures WfDisk(ds[k], g) && Home(ds[k], g) == Home(ds[0], g)
  {
    if k > 0 {
      CutRecoveriesSafe(ds, g, k - 1);
      assert CutRecovery(ds[k - 1], ds[k], g);
      RecoverySafe(ds[k - 1], g);
    }
  }

  /** A commit on an empty on-disk log: the writes to the log leave the old contents, every
      later write the new contents, nothing in between. */
  lemma CommitAtomic(d: seq<Block>, g: Geometry, l: seq<nat>, view: seq<Block>, i: nat)
    requires WfDisk(d, g) && Count(d[g.start]) == 0 && Loggable(l, g, |d|) && |view| == |d|
    requires forall bn :: 0 <= bn < |d| && !InLog(g, bn) && bn !in l ==> view[bn] == d[bn]
    requires i < |CommitTrace(d, g, l, view)|
    ensures var c := CommitTrace(d, g, l, view)[i];
            WfDisk(c, g) && Home(c, g) == if i < |l| then Mask(d, g) else Mask(view, g)
  {
    hide Home, Mask, LogTrace, InstallTrace, Done, CommitHead;
    CommitPoint(d, g, l, view);
    var d1 := CommitHead(d, g, l, view);
    CommitIndex(d, g, l, view, i);
    if i < |l| {
      LogSafe(d, g, l, view, i);
    } else if |l| < i <= 2 * |l| {
      InstallSafe(d1, g, i - |l| - 1);
    } else if i > 2 * |l| {
      ClearSafe(d1, g);
    }
  }

  lemma CommitIndex(d: seq<Block>, g: Geometry, l: seq<nat>, view: seq<Block>, i: nat)
    requires GeoOk(g, |d|) && Loggable(l, g, |d|) && |view| == |d|
    requires i < |CommitTrace(d, g, l, view)|
    ensures i < 2 * |l| + 2
    ensures CommitTrace(d, g, l, view)[i] ==
            var d1 := CommitHead(d, g, l, view);
            if i < |l| then LogTrace(d, g, l, view, 0)[i]
            else if i == |l| then d1
            else if i <= 2 * |l| then InstallTrace(d1, g, l, 0)[i - |l| - 1]
            else Done(d1, g, l)
  {
  }

  lemma LogSafe(d: seq<Block>, g: Geometry, l: seq<nat>, view: seq<Block>, i: nat)
    requires WfDisk(d, g) && Count(d[g.start]) == 0 && Loggable(l, g, |d|) && |view| == |d| && i < |l|
    ensures var c := LogTrace(d, g, l, view, 0)[i]; WfDisk(c, g) && Home(c, g) == Mask(d, g)
  {
    LogAt(d, g, l, view, 0, i);
    var c := LogTrace(d, g, l, view, 0)[i];
    assert Mask(c, g) == Mask(d, g);
    HomeOf(c, g, [], c);
  }

  /** Writing the header is the commit point. */
  lemma CommitPoint(d: seq<Block>, g: Geometry, l: seq<nat>, view: seq<Block>)
    requires WfDisk(d, g) && Count(d[g.start]) == 0 && Loggable(l, g, |d|) && |view| == |d| && l != []
    requires forall bn :: 0 <= bn < |d| && !InLog(g, bn) && bn !in l ==> view[bn] == d[bn]
    ensures var d1 := CommitHead(d, g, l, view);
            WfDisk(d1, g) && Entries(d1[g.start]) == l && Home(d1, g) == Mask(view, g)
  {
    hide Home, Mask, WithEntries, LogTrace;
    HeaderRoundTrip(d[g.start], l);
    LogAt(d, g, l, view, 0, |l| - 1);
    var d1 := CommitHead(d, g, l, view);
    HomeOf(d1, g, l, view);
  }

  /** A commit that runs to its end leaves the new contents home and an empty log. */
  lemma CommitEnd(d: seq<Block>, g: Geometry, l: seq<nat>, view: seq<Block>)
    requires WfDisk(d, g) && Count(d[g.start]) == 0 && Loggable(l, g, |d|) && |view| == |d|
    requires forall bn :: 0 <= bn < |d| && !InLog(g, bn) && bn !in l ==> view[bn] == d[bn]
    ensures var e := Last(d, CommitTrace(d, g, l, view));
            && |e| == |d| && WfDisk(e, g) && Count(e[g.start]) == 0
            && Home(e, g) == Mask(e, g) == Mask(view, g)
  {
    hide Home, Mask, Get, InstallTrace, LogTrace, CommitHead, Done, Distinct;
    if l == [] {
      HomeOf(d, g, [], view);
      EmptyLog(d, g);
    } else {
      CommitPoint(d, g, l, view);
      ClearSafe(CommitHead(d, g, l, view), g);
    }
  }

  /** Crash atomicity: cut a commit after any number of writes, run recovery, itself cut and
      restarted any number of times; once it finishes, the home blocks are all old or all new
      and the log is empty. */
  lemma CrashAtomicity(d: seq<Block>, g: Geometry, l: seq<nat>, view: seq<Block>, cut: nat, ds: seq<seq<Block>>)
    requires WfDisk(d, g) && Count(d[g.start]) == 0 && Loggable(l, g, |d|) && |view| == |d|
    requires forall bn :: 0 <= bn < |d| && !InLog(g, bn) && bn !in l ==> view[bn] == d[bn]
    requires cut <= |CommitTrace(d, g, l, view)|
    requires CutRecoveries(ds, g) && ds[0] == Last(d, CommitTrace(d, g, l, view)[..cut])
    ensures var c := ds[|ds| - 1];
            WfDisk(c, g) &&
            var e := Last(c, RecoveryTrace(c, g));
            && |e| == |d| && Count(e[g.start]) == 0
            && Mask(e, g) == if cut <= |l| then Mask(d, g) else Mask(view, g)
  {
    CutRecoveriesSafe(ds, g, |ds| - 1);
    RecoverySafe(ds[|ds| - 1], g);
    CutCommit(d, g, l, view, cut);
  }

  lemma CutCommit(d: seq<Block>, g: Geometry, l: seq<nat>, view: seq<Block>, cut: nat)
    requires WfDisk(d, g) && Count(d[g.start]) == 0 && Loggable(l, g, |d|) && |view| == |d|
    requires forall bn :: 0 <= bn < |d| && !InLog(g, bn) && bn !in l ==> view[bn] == d[bn]
    requires cut <= |CommitTrace(d, g, l, view)|
    ensures var c := Last(d, CommitTrace(d, g, l, view)[..cut]);
            WfDisk(c, g) && Home(c, g) == if cut <= |l| then Mask(d, g) else Mask(view, g)
  {
    hide Home, Mask, CommitTrace;
    if cut > 0 {
      CommitAtomic(d, g, l, view, cut - 1);
    } else {
      EmptyLog(d, g);
    }
  }

  /** Every disk state of the history `h` from index `from` on stands for one of `imgs`. */
  ghost predicate Trail(h: seq<seq<Block>>, from: nat, g: Geometry, imgs: seq<seq<Block>>) {
    forall k {:trigger h[k]} :: from <= k < |h| ==> WfDisk(h[k], g) && Home(h[k], g) in imgs
  }

  /** The index of the present state in a history. */
  function Since(h: seq<seq<Block>>): nat {
    if h == [] then 0 else |h| - 1
  }

  /** The state that a history starts from counts, too. */
  lemma TrailSince(h: seq<seq<Block>>, h': seq<seq<Block>>, g: Geometry, imgs: seq<seq<Block>>)
    requires h != [] && h <= h' && Trail(h', |h|, g, imgs)
    requires WfDisk(h[|h| - 1], g) && Home(h[|h| - 1], g) in imgs
    ensures Trail(h', Since(h), g, imgs)
  {
    hide Home, WfDisk;
    assert h'[|h| - 1] == h[|h| - 1];
  }

  /** The writes of a commit stand for the old contents or for the new. */
  lemma CommitTrail(r: Run, g: Geometry, l: seq<nat>, view: seq<Block>)
    requires WfDisk(r.d, g) && Count(r.d[g.start]) == 0 && Loggable(l, g, |r.d|) && |view| == |r.d|
    requires forall bn :: 0 <= bn < |r.d| && !InLog(g, bn) && bn !in l ==> view[bn] == r.d[bn]
    ensures Trail(After(r, CommitTrace(r.d, g, l, view)).h, |r.h|, g, [Home(r.d, g), Mask(view, g)])
  {
    hide Home, Mask, CommitTrace;
    EmptyLog(r.d, g);
    var t := CommitTrace(r.d, g, l, view);
    var h := After(r, t).h;
    forall k | |r.h| <= k < |h| ensures WfDisk(h[k], g) && Home(h[k], g) in [Home(r.d, g), Mask(view, g)] {
      CommitAtomic(r.d, g, l, view, k - |r.h|);
      assert h[k] == t[k - |r.h|];
    }
  }

  /** The runs of recover_from_log and commit, put together from those of their parts. */
  lemma RecoveryNone(r: Run, g: Geometry)
    requires WfDisk(r.d, g) && Count(r.d[g.start]) == 0
    ensures After(r, RecoveryTrace(r.d, g)) == r
  {
  }

  lemma RecoveryRun(r: Run, g: Geometry)
    requires WfDisk(r.d, g) && Entries(r.d[g.start]) != []
    ensures var l := Entries(r.d[g.start]);
            var r1 := After(r, InstallTrace(r.d, g, l, 0));
            && |r1.d| == |r.d| && r1.d[g.start] == r.d[g.start]
            && After(r, RecoveryTrace(r.d, g)) == After(r1, [Done(r.d, g, l)])
  {
    var l := Entries(r.d[g.start]);
    InstallAt(r.d, g, l, 0, |l| - 1);
    assert InLog(g, g.start);
    AfterAfter(r, InstallTrace(r.d, g, l, 0), [Done(r.d, g, l)]);
  }

  lemma CommitNone(r: Run, g: Geometry, view: seq<Block>)
    requires GeoOk(g, |r.d|) && |view| == |r.d|
    ensures After(r, CommitTrace(r.d, g, [], view)) == r
  {
  }

  lemma CommitRun(r: Run, g: Geometry, l: seq<nat>, view: seq<Block>)
    requires GeoOk(g, |r.d|) && Loggable(l, g, |r.d|) && |view| == |r.d| && l != []
    ensures var d1 := CommitHead(r.d, g, l, view);
            var r1 := After(r, LogTrace(r.d, g, l, view, 0));
            var r2 := After(r1, [d1]);
            var r3 := After(r2, InstallTrace(d1, g, l, 0));
            && |r1.d| == |r3.d| == |r.d| && r1.d[g.start] == r.d[g.start] && r3.d[g.start] == d1[g.start]
            && After(r, CommitTrace(r.d, g, l, view)) == After(r3, [Done(d1, g, l)])
  {
    var d1 := CommitHead(r.d, g, l, view);
    assert InLog(g, g.start);
    LogAt(r.d, g, l, view, 0, |l| - 1);
    InstallAt(d1, g, l, 0, |l| - 1);
    var t, u := LogTrace(r.d, g, l, view, 0), InstallTrace(d1, g, l, 0);
    AfterAfter(r, t, [d1]);
    AfterAfter(r, t + [d1], u);
    AfterAfter(r, t + [d1] + u, [Done(d1, g, l)]);
  }
}
