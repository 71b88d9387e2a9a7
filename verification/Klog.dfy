/** The kernel log ring of kernel/klog.c. */
module Klog {
  const LOG_BUFSIZE := 4096

  /** What a ring that can hold LOG_BUFSIZE - 1 characters keeps of a stream. */
  function Kept(s: seq<char>): (r: seq<char>)
    ensures |r| == (if |s| < LOG_BUFSIZE then |s| else LOG_BUFSIZE - 1) && r == s[|s| - |r|..]
  {
    if |s| < LOG_BUFSIZE then s else s[|s| - (LOG_BUFSIZE - 1)..]
  }

  /** The number of characters between the two positions, and the k-th of them. */
  function Length(head: nat, tail: nat): nat
    requires tail < LOG_BUFSIZE
  {
    if head >= tail then head - tail else head + LOG_BUFSIZE - tail
  }

  function At(tail: nat, k: nat): nat {
    if tail + k < LOG_BUFSIZE then tail + k else tail + k - LOG_BUFSIZE
  }

  function Digit(d: nat): char
    requires d < 10
  {
    '0' + d as char
  }

  function DigitValue(c: char): int {
    c as int - '0' as int
  }

  /** Decimal notation, and its reading. */
  function Decimal(n: nat): (s: seq<char>)
    ensures |s| > 0
  {
    if n < 10 then [Digit(n)] else Decimal(n / 10) + [Digit(n % 10)]
  }

  function Value(s: seq<char>): int {
    if s == [] then 0 else 10 * Value(s[..|s| - 1]) + DigitValue(s[|s| - 1])
  }

  /** The digits read back as the number, and there is no leading zero. */
  lemma {:induction false} DecimalValue(n: nat)
    ensures Value(Decimal(n)) == n && Decimal(n)[|Decimal(n)| - 1] == "0123456789"[n % 10]
    ensures (forall k :: 0 <= k < |Decimal(n)| ==> '0' <= Decimal(n)[k] <= '9') && (n > 0 ==> Decimal(n)[0] != '0')
  {
    if n >= 10 {
      DecimalValue(n / 10);
      assert Decimal(n)[..|Decimal(n)| - 1] == Decimal(n / 10);
    } else {
      assert Decimal(n)[..0] == [];
    }
  }

  function Pow10(k: nat): nat {
    if k == 0 then 1 else 10 * Pow10(k - 1)
  }

  lemma {:induction false} DecimalLength(n: nat, k: nat)
    requires n < Pow10(k) && k > 0
    ensures |Decimal(n)| <= k
  {
    if n >= 10 {
      assert Pow10(1) == 10;
      DecimalLength(n / 10, k - 1);
    }
  }

  /** A 64-bit number has at most 20 digits. */
  lemma Digits64(n: nat)
    requires n < 0x1_0000_0000_0000_0000
    ensures |Decimal(n)| <= 20
  {
    assert Pow10(10) == 10000000000 by { assert Pow10(5) == 100000; }
    assert Pow10(20) == 100000000000000000000 by { assert Pow10(15) == 1000000000000000; }
    DecimalLength(n, 20);
  }

  /** From `tail` to `head`, the ring holds what it keeps of the stream `s`. */
  ghost predicate Holds(b: seq<char>, head: nat, tail: nat, s: seq<char>) {
    && |b| == LOG_BUFSIZE && head < LOG_BUFSIZE && tail < LOG_BUFSIZE && Length(head, tail) == |Kept(s)|
    && forall k {:trigger Kept(s)[k]} :: 0 <= k < |Kept(s)| ==> b[At(tail, k)] == Kept(s)[k]
  }

  /** The next position: `(p + 1) % LOG_BUFSIZE`. */
  function Wrap(p: nat): nat {
    if p == LOG_BUFSIZE - 1 then 0 else p + 1
  }

  lemma WrapIs(p: nat)
    requires p < LOG_BUFSIZE
    ensures Wrap(p) == (p + 1) % LOG_BUFSIZE < LOG_BUFSIZE
  {
  }

  lemma LengthMore(head: nat, tail: nat)
    requires head < LOG_BUFSIZE && tail < LOG_BUFSIZE
    ensures Wrap(head) < LOG_BUFSIZE && Wrap(tail) < LOG_BUFSIZE && Length(head, tail) < LOG_BUFSIZE
    ensures Wrap(head) == tail <==> Length(head, tail) == LOG_BUFSIZE - 1
    ensures if Wrap(head) == tail then Length(Wrap(head), Wrap(tail)) == LOG_BUFSIZE - 1
            else Length(Wrap(head), tail) == Length(head, tail) + 1
  {
  }

  lemma HoldsMore(b: seq<char>, head: nat, tail: nat, s: seq<char>, c: char)
    requires Holds(b, head, tail, s)
    ensures |b| == LOG_BUFSIZE && head < LOG_BUFSIZE && tail < LOG_BUFSIZE
    ensures Wrap(head) == tail <==> |s| >= LOG_BUFSIZE - 1
    ensures Holds(b[head := c], Wrap(head), if Wrap(head) == tail then Wrap(tail) else tail, s + [c])
  {
    hide Kept, At, Wrap, Length;
    KeptLength(s);
    KeptLength(s + [c]);
    LengthMore(head, tail);
    var full := |s| >= LOG_BUFSIZE - 1;
    var t' := if full then Wrap(tail) else tail;
    forall k | 0 <= k < |Kept(s + [c])| ensures At(t', k) < LOG_BUFSIZE && b[head := c][At(t', k)] == Kept(s + [c])[k] {
      HoldsAt(b, head, tail, s, c, k);
    }
  }

  /** What log_dump finds at its position `k`. */
  lemma HeldAt(b: seq<char>, head: nat, tail: nat, s: seq<char>, k: nat)
    requires Holds(b, head, tail, s) && k <= |Kept(s)|
    ensures |b| == LOG_BUFSIZE && head < LOG_BUFSIZE && At(tail, 0) == tail && (At(tail, k) == head <==> k == |Kept(s)|)
    ensures At(tail, k) < |b| && (k < |Kept(s)| ==> At(tail, k + 1) == Wrap(At(tail, k)))
    ensures k < |Kept(s)| ==> b[At(tail, k)] == Kept(s)[k]
  {
    hide Kept;
    KeptLength(s);
  }

  lemma TakeNext(s: seq<char>, k: nat)
    requires k < |s|
    ensures s[..k] + [s[k]] == s[..k + 1]
  {
  }

  /** Character `k` of the ring after one more has been put. */
  lemma HoldsAt(b: seq<char>, head: nat, tail: nat, s: seq<char>, c: char, k: nat)
    requires Holds(b, head, tail, s) && k < |Kept(s + [c])|
    ensures var tail' := if |s| >= LOG_BUFSIZE - 1 then Wrap(tail) else tail;
            At(tail', k) < LOG_BUFSIZE && b[head := c][At(tail', k)] == Kept(s + [c])[k]
  {
    hide Kept, At, Wrap, Length;
    KeptLength(s);
    KeptMore(s, c);
    var full := |s| >= LOG_BUFSIZE - 1;
    var j := if full then k + 1 else k;     // its place in the old ring
    if full { AtNext(tail, k); }
    HeldAt(b, head, tail, s, j);
    if j < |Kept(s)| {
      assert Kept(s + [c])[k] == Kept(s)[j];
    } else {
      assert Kept(s + [c])[k] == c;
    }
  }

  lemma AtNext(tail: nat, k: nat)
    requires tail < LOG_BUFSIZE && k + 1 < LOG_BUFSIZE
    ensures At(Wrap(tail), k) == At(tail, k + 1)
  {
  }

  lemma KeptLength(s: seq<char>)
    ensures |Kept(s)| == if |s| < LOG_BUFSIZE then |s| else LOG_BUFSIZE - 1
  {
  }

  /** The first loop of log_print_num: the digits, the last first. */
  method FillDigits(buf: array<char>, n0: nat) returns (i: nat)
    requires buf.Length == 20 && 0 < n0 < 0x1_0000_0000_0000_0000
    modifies buf
    ensures i == |Decimal(n0)| <= 20 && forall k :: 0 <= k < i ==> buf[i - 1 - k] == Decimal(n0)[k]
  {
    hide Decimal;
    Digits64(n0);
    var n := n0;
    i := 0;
    ghost var low: seq<char> := [];      // the digits found
    while n > 0
      invariant 0 <= i == |low| <= 20 && (if n > 0 then Decimal(n) else []) + low == Decimal(n0)
      invariant forall k :: 0 <= k < i ==> buf[i - 1 - k] == low[k]
    {
      LastDigit(n);
      assert |Decimal(n)| + i <= 20;
      buf[i] := '0' + (n % 10) as char;
      low := [buf[i]] + low;
      i := i + 1;
      n := n / 10;
    }
  }

  lemma LastDigit(n: nat)
    ensures Decimal(n) == (if n >= 10 then Decimal(n / 10) else []) + [Digit(n % 10)]
  {
  }

  /** How many of `n` characters the ring has lost. */
  function Lost(n: nat): nat {
    if n >= LOG_BUFSIZE then n - (LOG_BUFSIZE - 1) else 0
  }

  /** Whatever has been put is kept or lost: the ring keeps the last 4095 characters. */
  lemma KeptOrLost(s: seq<char>)
    ensures |Kept(s)| + Lost(|s|) == |s| && Kept(s) == s[Lost(|s|)..]
    ensures Lost(|s|) == if |s| > 4095 then |s| - 4095 else 0
  {
  }

  lemma StartHolds(b: seq<char>, head: nat, tail: nat, s: seq<char>)
    requires Holds(b, head, tail, s)
    ensures Holds(b, 0, 0, [])
  {
  }

  class Ring {
    const buffer: array<char>
    var head: nat
    var tail: nat
    var dropped: nat
    ghost var chars: seq<char>      // all characters put since the last clear

    ghost predicate Valid()
      reads this, buffer
    {
      Holds(buffer[..], head, tail, chars)
    }

    constructor ()
      ensures Valid() && fresh(buffer) && chars == [] && dropped == 0
    {
      buffer := new char[LOG_BUFSIZE](_ => '\0');
      head, tail, dropped, chars := 0, 0, 0, [];
    }

    /** log_putc: one more character; the oldest goes when the ring is full. */
    method Putc(c: char)
      requires Valid()
      modifies this`head, this`tail, this`dropped, this`chars, buffer
      ensures Valid() && chars == old(chars) + [c]
      ensures dropped == old(dropped) + Lost(|chars|) - Lost(|old(chars)|)
      ensures dropped == old(dropped) + if |old(chars)| >= 4095 then 1 else 0
    {
      hide Holds, Kept;
      HoldsMore(buffer[..], head, tail, chars, c);
      WrapIs(head);
      WrapIs(tail);
      ghost var b := buffer[..];
      buffer[head] := c;
      assert buffer[..] == b[head := c];
      head := (head + 1) % LOG_BUFSIZE;
      if head == tail {
        tail := (tail + 1) % LOG_BUFSIZE;
        dropped := dropped + 1;
      }
      chars := chars + [c];
    }

    /** log_puts. */
    method Puts(s: seq<char>)
      requires Valid()
      modifies this`head, this`tail, this`dropped, this`chars, buffer
      ensures Valid() && chars == old(chars) + s && dropped == old(dropped) + Lost(|chars|) - Lost(|old(chars)|)
    {
      var k := 0;
      while k < |s|
        invariant 0 <= k <= |s| && Valid() && chars == old(chars) + s[..k]
        invariant dropped == old(dropped) + Lost(|chars|) - Lost(|old(chars)|)
      {
        assert s[..k + 1] == s[..k] + [s[k]];
        Putc(s[k]);
        k := k + 1;
      }
      assert s[..k] == s;
    }

    /** log_print_num: the decimal digits of a 64-bit number, without overrunning its buffer. */
    method PrintNum(n: nat)
      requires Valid() && n < 0x1_0000_0000_0000_0000
      modifies this`head, this`tail, this`dropped, this`chars, buffer
      ensures Valid() && chars == old(chars) + Decimal(n)
              && dropped == old(dropped) + Lost(|chars|) - Lost(|old(chars)|)
    {
      hide Holds, Kept;
      if n == 0 {
        Putc('0');
        return;
      }
      var buf := new char[20];
      var i := FillDigits(buf, n);
      ghost var all := Decimal(n);
      while i > 0
        invariant 0 <= i <= |all| <= 20 && Valid() && chars == old(chars) + all[..|all| - i] && buf != buffer
        invariant forall k :: 0 <= k < |all| ==> buf[|all| - 1 - k] == all[k]
        invariant dropped == old(dropped) + Lost(|chars|) - Lost(|old(chars)|)
      {
        i := i - 1;
        assert all[..|all| - i] == all[..|all| - i - 1] + [all[|all| - i - 1]];
        Putc(buf[i]);
      }
      assert all[..|all|] == all;
    }

    /** log_dump: the characters it prints between its banners. */
    method Dump() returns (out: seq<char>)
      requires Valid()
      ensures out == Kept(chars) == if |chars| <= 4095 then chars else chars[|chars| - 4095..]
    {
      hide Holds, Kept, At, Wrap;
      ghost var kept := Kept(chars);
      out := [];
      var pos := tail;
      HeldAt(buffer[..], head, tail, chars, 0);
      while pos != head
        invariant |out| <= |kept| && pos == At(tail, |out|) < LOG_BUFSIZE && out == kept[..|out|]
        invariant pos == head <==> |out| == |kept|
        decreases |kept| - |out|
      {
        HeldAt(buffer[..], head, tail, chars, |out|);
        HeldAt(buffer[..], head, tail, chars, |out| + 1);
        TakeNext(kept, |out|);
        WrapIs(pos);
        out := out + [buffer[pos]];
        pos := (pos + 1) % LOG_BUFSIZE;
      }
      KeptOrLost(chars);
    }

    /** log_clear at time `ts`: the ring then holds the message that it logs itself, and nothing
        if logging is off. */
    method Clear(enabled: bool, ts: nat)
      requires Valid() && ts < 0x1_0000_0000_0000_0000
      modifies this`head, this`tail, this`dropped, this`chars, buffer
      ensures Valid() && chars ==
              (if enabled then ['['] + Decimal(ts) + "] [" + "INFO " + "] " + "Log buffer cleared\n" else [])
      ensures dropped == old(dropped)
    {
      hide Holds, Kept, Decimal;
      StartHolds(buffer[..], head, tail, chars);
      head, tail, chars := 0, 0, [];
      if enabled {
        Digits64(ts);
        Putc('[');
        PrintNum(ts);
        Puts("] [");
        Puts("INFO ");
        Puts("] ");
        Puts("Log buffer cleared\n");
      }
    }
  }

  lemma KeptMore(s: seq<char>, c: char)
    ensures Kept(s + [c]) == if |s| < LOG_BUFSIZE - 1 then Kept(s) + [c] else Kept(s)[1..] + [c]
  {
  }
}
