/** What a process's memory looks like through copyin, copyout and copyinstr: the bytes at the
    virtual addresses mapped for user access. */
module UserMem {
  import opened Bytes

  datatype Option<T> = None | Some(value: T)

  type User = map<nat, byte>

  predicate Mapped(u: User, va: nat, n: nat) {
    forall a :: va <= a < va + n ==> a in u
  }

  /** `n` bytes from `va` on; nothing if one of them is not accessible. */
  function Fetch(u: User, va: nat, n: nat): (r: Option<seq<byte>>)
    ensures r.Some? ==> |r.value| == n
  {
    if Mapped(u, va, n) then Some(seq(n, k requires 0 <= k < n && Mapped(u, va, n) => u[va + k])) else None
  }

  /** Storing stops at the first inaccessible byte. */
  function Stored(u: User, va: nat, src: seq<byte>): User
    decreases |src|
  {
    if src == [] || va !in u then u else Stored(u[va := src[0]], va + 1, src[1..])
  }

  lemma {:induction false} StoredAt(u: User, va: nat, src: seq<byte>, a: nat)
    ensures Stored(u, va, src).Keys == u.Keys
    ensures Mapped(u, va, |src|) && va <= a < va + |src| ==> a in u && Stored(u, va, src)[a] == src[a - va]
    ensures a in u && !(va <= a < va + |src|) ==> Stored(u, va, src)[a] == u[a]
    decreases |src|
  {
    if src != [] && va in u {
      var u' := u[va := src[0]];
      StoredAt(u', va + 1, src[1..], a);
      assert u'.Keys == u.Keys;
      if Mapped(u, va, |src|) { assert Mapped(u', va + 1, |src| - 1); }
      if a == va { StoredAt(u', va + 1, src[1..], va); }
    }
  }

  /** Storing a string in two pieces. */
  lemma {:induction false} StoredConcat(u: User, va: nat, a: seq<byte>, b: seq<byte>)
    requires Mapped(u, va, |a|)
    ensures Stored(u, va, a + b) == Stored(Stored(u, va, a), va + |a|, b)
    decreases |a|
  {
    if a == [] {
      assert [] + b == b;
    } else {
      var u' := u[va := a[0]];
      assert Mapped(u', va + 1, |a| - 1);
      assert (a + b)[0] == a[0] && (a + b)[1..] == a[1..] + b;
      assert va in u;
      StoredConcat(u', va + 1, a[1..], b);
    }
  }

  /** What is stored is fetched back. */
  lemma StoreFetch(u: User, va: nat, src: seq<byte>)
    requires Mapped(u, va, |src|)
    ensures Fetch(Stored(u, va, src), va, |src|) == Some(src)
  {
    var u' := Stored(u, va, src);
    forall a | va <= a < va + |src| ensures a in u' && u'[a] == src[a - va] {
      StoredAt(u, va, src, a);
    }
    assert Mapped(u', va, |src|);
    assert Fetch(u', va, |src|).value == src;
  }

  /** The string at `va`, its NUL within the first `max` bytes; nothing if an inaccessible byte
      comes first or there is no NUL. */
  function Str(u: User, va: nat, max: nat): Option<seq<byte>>
    decreases max
  {
    if max == 0 || va !in u then None
    else if u[va] == 0 then Some([])
    else match Str(u, va + 1, max - 1)
         case None => None
         case Some(t) => Some([u[va]] + t)
  }

  /** There is a string exactly when a NUL occurs among the first `max` accessible bytes, and
      it is what comes before. */
  lemma {:induction false} StrIs(u: User, va: nat, max: nat, k: nat)
    ensures k < max && Mapped(u, va, k + 1) && u[va + k] == 0 ==> Str(u, va, max).Some?
    ensures Str(u, va, max).Some? ==> var t := Str(u, va, max).value;
              && |t| < max && Mapped(u, va, |t| + 1) && u[va + |t|] == 0
              && Fetch(u, va, |t|) == Some(t) && forall i :: 0 <= i < |t| ==> t[i] != 0
    decreases max
  {
    if max == 0 || va !in u {
    } else if u[va] == 0 {
      assert Fetch(u, va, 0).value == [];
    } else {
      if k > 0 && Mapped(u, va, k + 1) {
        assert Mapped(u, va + 1, k);
        StrIs(u, va + 1, max - 1, k - 1);
      } else {
        StrIs(u, va + 1, max - 1, 0);
      }
      if Str(u, va, max).Some? { FetchFront(u, va, Str(u, va + 1, max - 1).value); }
    }
  }

  /** One byte more in front. */
  lemma FetchFront(u: User, va: nat, t: seq<byte>)
    requires va in u && Mapped(u, va + 1, |t| + 1) && Fetch(u, va + 1, |t|) == Some(t)
    ensures Mapped(u, va, |t| + 2) && Fetch(u, va, |t| + 1) == Some([u[va]] + t)
  {
    forall a | va <= a < va + |t| + 2 ensures a in u { if a > va { assert va + 1 <= a; } }
    forall i | 0 <= i < |t| ensures u[va + 1 + i] == t[i] { assert Fetch(u, va + 1, |t|).value[i] == t[i]; }
    assert Mapped(u, va, |t| + 1);
    assert Fetch(u, va, |t| + 1).value == [u[va]] + t;
  }
}
