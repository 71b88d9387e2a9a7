/** The reservation discipline of kernel/log.c over any interleaving of operations, each of
    which logs at most LOGOP distinct blocks. */
module Reservation {
  import opened LogSpec

  /** The open transaction: the logged block list, and what each open operation has logged. */
  datatype Txn = Txn(list: seq<nat>, ops: seq<set<nat>>)

  datatype Event = Begin | Write(op: nat, bn: nat) | End(op: nat)

  /** The guard of begin_op. */
  predicate MayBegin(t: Txn, size: nat) {
    |t.list| + (|t.ops| + 1) * LOGOP + LOGOP <= size
  }

  /** What callers may do: begin when let in, keep to LOGOP distinct blocks, end once. */
  ghost predicate Allowed(t: Txn, e: Event, size: nat) {
    match e
    case Begin => MayBegin(t, size)
    case Write(k, bn) => k < |t.ops| && (bn in t.ops[k] || |t.ops[k]| < LOGOP)
    case End(k) => k < |t.ops|
  }

  ghost function Remove<T>(s: seq<T>, k: nat): (r: seq<T>)
    requires k < |s|
  {
    s[..k] + s[k + 1..]
  }

  ghost function Step(t: Txn, e: Event): Txn
    requires e.Begin? || e.op < |t.ops|
  {
    match e
    case Begin => t.(ops := t.ops + [{}])
    case Write(k, bn) => Txn(Logged(t.list, bn), t.ops[k := t.ops[k] + {bn}])
    case End(k) => if |t.ops| == 1 then Txn([], []) else t.(ops := Remove(t.ops, k))
  }

  /** Blocks that the open operations may still add. */
  ghost function Slack(ops: seq<set<nat>>): nat {
    if ops == [] then 0
    else (if |ops[0]| <= LOGOP then LOGOP - |ops[0]| else 0) + Slack(ops[1..])
  }

  ghost predicate Reserved(t: Txn, size: nat) {
    && |t.list| + Slack(t.ops) + LOGOP <= size
    && Distinct(t.list)
    && (t.ops == [] ==> t.list == [])
    && (forall k :: 0 <= k < |t.ops| ==> |t.ops[k]| <= LOGOP)
    && (forall k, bn :: 0 <= k < |t.ops| && bn in t.ops[k] ==> bn in t.list)
  }

  lemma ReservedBound(t: Txn, size: nat)
    requires Reserved(t, size)
    ensures |t.list| + LOGOP <= size
  {
  }

  lemma ReservedEmpty(size: nat)
    requires size >= LOGOP
    ensures Reserved(Txn([], []), size)
  {
  }

  lemma {:induction false} SlackConcat(a: seq<set<nat>>, b: seq<set<nat>>)
    ensures Slack(a + b) == Slack(a) + Slack(b)
  {
    if a == [] {
      assert a + b == b;
    } else {
      SlackConcat(a[1..], b);
      assert (a + b)[1..] == a[1..] + b;
    }
  }

  lemma SlackOne(o: set<nat>)
    ensures Slack([o]) == if |o| <= LOGOP then LOGOP - |o| else 0
  {
    assert Slack([o][1..]) == 0;
  }

  lemma SlackSplit(ops: seq<set<nat>>, k: nat)
    requires k < |ops|
    ensures Slack(ops) == Slack(ops[..k]) + Slack([ops[k]]) + Slack(ops[k + 1..])
  {
    hide Slack;
    assert ops == ops[..k] + [ops[k]] + ops[k + 1..];
    SlackConcat(ops[..k] + [ops[k]], ops[k + 1..]);
    SlackConcat(ops[..k], [ops[k]]);
  }

  lemma {:induction false} SlackBound(ops: seq<set<nat>>)
    ensures Slack(ops) <= |ops| * LOGOP
  {
    if ops != [] { SlackBound(ops[1..]); }
  }

  /** Logging a block uses up one unit of the operation's reservation, unless it has logged it. */
  lemma SlackWrite(ops: seq<set<nat>>, k: nat, bn: nat)
    requires k < |ops| && |ops[k] + {bn}| <= LOGOP
    ensures Slack(ops[k := ops[k] + {bn}]) == Slack(ops) - if bn in ops[k] then 0 else 1
  {
    var o := ops[k] + {bn};
    var ops' := ops[k := o];
    SlackSplit(ops, k);
    SlackSplit(ops', k);
    assert ops'[..k] == ops[..k] && ops'[k + 1..] == ops[k + 1..];
    SlackOne(o);
    SlackOne(ops[k]);
    assert bn in ops[k] ==> o == ops[k];
  }

  /** Every step keeps the reservation, and none of them overfills the log: log_write finds
      lh.n < size - 1 and room in the header. */
  lemma StepReserved(t: Txn, e: Event, size: nat)
    requires Reserved(t, size) && Allowed(t, e, size)
    ensures Reserved(Step(t, e), size)
    ensures e.Write? ==> |t.list| < size - 1
  {
    hide Slack;
    match e
    case Begin =>
      SlackBound(t.ops);
      SlackConcat(t.ops, [{}]);
      SlackOne({});
    case Write(k, bn) =>
      SlackWrite(t.ops, k, bn);
    case End(k) =>
      SlackSplit(t.ops, k);
      SlackConcat(t.ops[..k], t.ops[k + 1..]);
  }

  /** The transactions that a sequence of events goes through. */
  ghost predicate IsRun(ts: seq<Txn>, es: seq<Event>, size: nat) {
    && |ts| == |es| + 1 && ts[0] == Txn([], [])
    && forall i :: 0 <= i < |es| ==> Allowed(ts[i], es[i], size) && ts[i + 1] == Step(ts[i], es[i])
  }

  lemma {:induction false} RunReserved(ts: seq<Txn>, es: seq<Event>, size: nat, i: nat)
    requires IsRun(ts, es, size) && i <= |es| && size >= LOGOP
    ensures Reserved(ts[i], size) && |ts[i].list| <= size - LOGOP
  {
    if i > 0 {
      RunReserved(ts, es, size, i - 1);
      StepReserved(ts[i - 1], es[i - 1], size);
    }
  }
}
