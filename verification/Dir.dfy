/** Directory contents as a finite map from names to inode numbers, and path components. */
module Dir {
  import opened Bytes
  import opened FsSpec
  import opened FsState

  const DIRSIZ := 14
  const DESIZE := 16

  type Name = s: seq<byte> | |s| == DIRSIZ witness seq(DIRSIZ, _ => 0)

  /** A name field counts up to its first NUL, or whole. */
  function Key(s: seq<byte>): (k: seq<byte>)
    ensures |k| <= |s|
  {
    if s == [] || s[0] == 0 then [] else [s[0]] + Key(s[1..])
  }

  function Inum(c: seq<byte>, k: nat): nat
    requires DESIZE * (k + 1) <= |c|
  {
    Get(c, DESIZE * k, 2)
  }

  function NameOf(c: seq<byte>, k: nat): Name
    requires DESIZE * (k + 1) <= |c|
  {
    c[DESIZE * k + 2..DESIZE * (k + 1)]
  }

  function Slots(c: seq<byte>): nat {
    |c| / DESIZE
  }

  /** A directory file on a disk of `n` inodes: whole entries, live ones with distinct names. */
  ghost predicate DirOk(c: seq<byte>, n: nat) {
    && |c| % DESIZE == 0
    && (forall k :: 0 <= k < Slots(c) && Inum(c, k) != 0 ==> Inum(c, k) < n)
    && (forall j, k :: 0 <= j < k < Slots(c) && Inum(c, j) != 0 && Inum(c, k) != 0 ==>
          Key(NameOf(c, j)) != Key(NameOf(c, k)))
  }

  /** The first `k` entries as a map. */
  ghost function MapTo(c: seq<byte>, k: nat): map<seq<byte>, nat>
    requires k <= Slots(c)
  {
    if k == 0 then map[]
    else if Inum(c, k - 1) != 0 then MapTo(c, k - 1)[Key(NameOf(c, k - 1)) := Inum(c, k - 1)]
    else MapTo(c, k - 1)
  }

  ghost function DirMap(c: seq<byte>): map<seq<byte>, nat> {
    MapTo(c, Slots(c))
  }

  lemma {:induction false} MapToIn(c: seq<byte>, n: nat, k: nat, j: nat)
    requires DirOk(c, n) && j < k <= Slots(c) && Inum(c, j) != 0
    ensures Key(NameOf(c, j)) in MapTo(c, k) && MapTo(c, k)[Key(NameOf(c, j))] == Inum(c, j)
  {
    if j < k - 1 { MapToIn(c, n, k - 1, j); }
  }

  lemma {:induction false} MapToOut(c: seq<byte>, k: nat, key: seq<byte>) returns (j: nat)
    requires k <= Slots(c) && key in MapTo(c, k)
    ensures j < k && Inum(c, j) != 0 && Key(NameOf(c, j)) == key
  {
    if Inum(c, k - 1) != 0 && Key(NameOf(c, k - 1)) == key {
      j := k - 1;
    } else {
      j := MapToOut(c, k - 1, key);
    }
  }

  /** The directory entry dirlink writes. */
  function Dirent(inum: nat, name: Name): (e: seq<byte>)
    ensures |e| == DESIZE
  {
    Enc(inum % U16, 2) + name
  }

  lemma SpliceInside(c: seq<byte>, off: nat, src: seq<byte>, lo: nat, hi: nat)
    requires off <= |c| && lo <= hi <= |src|
    ensures Splice(c, off, src)[off + lo..off + hi] == src[lo..hi]
  {
  }

  lemma SpliceOutside(c: seq<byte>, off: nat, src: seq<byte>, lo: nat, hi: nat)
    requires off <= |c| && lo <= hi <= |c| && (hi <= off || off + |src| <= lo)
    ensures Splice(c, off, src)[lo..hi] == c[lo..hi]
  {
  }

  /** Entry `k` of the directory is replaced, or appended when `k` is the next one. */
  lemma SpliceAt(c: seq<byte>, k: nat, e: seq<byte>, j: nat)
    requires |c| % DESIZE == 0 && k <= Slots(c) && |e| == DESIZE
    ensures var c' := Splice(c, DESIZE * k, e);
            && |c'| % DESIZE == 0 && Slots(c') == (if k == Slots(c) then k + 1 else Slots(c))
            && (j < Slots(c') ==>
                  Inum(c', j) == (if j == k then Get(e, 0, 2) else Inum(c, j)) &&
                  NameOf(c', j) == if j == k then e[2..] else NameOf(c, j))
  {
    hide Splice;
    var c' := Splice(c, DESIZE * k, e);
    if j < Slots(c') {
      if j == k {
        SpliceInside(c, DESIZE * k, e, 0, 2);
        SpliceInside(c, DESIZE * k, e, 2, DESIZE);
      } else {
        assert j < k || DESIZE * (k + 1) <= DESIZE * j;
        SpliceOutside(c, DESIZE * k, e, DESIZE * j, DESIZE * j + 2);
        SpliceOutside(c, DESIZE * k, e, DESIZE * j + 2, DESIZE * (j + 1));
      }
    }
  }

  lemma EntryParts(inum: nat, name: Name)
    ensures Get(Dirent(inum, name), 0, 2) == inum % U16 && Dirent(inum, name)[2..] == name
  {
    assert Pow256(2) == U16;
    assert Dirent(inum, name)[0..2] == Enc(inum % U16, 2);
    DecEnc(inum % U16, 2);
  }

  /** Directory `c'` is `c` with entry `k` set to name `name` and number `inum`. */
  ghost predicate EntrySet(c: seq<byte>, c': seq<byte>, k: nat, inum: nat, name: Name) {
    && |c'| % DESIZE == 0 && k < Slots(c')
    && (forall j {:trigger Inum(c', j)} :: 0 <= j < Slots(c') && j != k && Inum(c', j) != 0 ==> j < Slots(c))
    && (forall j {:trigger Inum(c', j)} {:trigger Inum(c, j)} :: 0 <= j < Slots(c) ==>
          && j < Slots(c') && Inum(c', j) == (if j == k then inum else Inum(c, j))
          && NameOf(c', j) == if j == k then name else NameOf(c, j))
    && Inum(c', k) == inum && NameOf(c', k) == name
  }

  lemma EntryIsSet(c: seq<byte>, k: nat, inum: nat, name: Name)
    requires |c| % DESIZE == 0 && k <= Slots(c) && inum < U16
    ensures EntrySet(c, Splice(c, DESIZE * k, Dirent(inum, name)), k, inum, name)
  {
    hide Splice, Dirent, Get;
    var c' := Splice(c, DESIZE * k, Dirent(inum, name));
    EntryParts(inum, name);
    forall j | 0 <= j < Slots(c')
      ensures j != k ==> j < Slots(c)
      ensures Inum(c', j) == (if j == k then inum else Inum(c, j))
      ensures NameOf(c', j) == if j == k then name else NameOf(c, j)
    {
      SpliceAt(c, k, Dirent(inum, name), j);
    }
    SpliceAt(c, k, Dirent(inum, name), 0);
  }

  lemma LinkOk(c: seq<byte>, c': seq<byte>, n: nat, k: nat, inum: nat, name: Name)
    requires DirOk(c, n) && EntrySet(c, c', k, inum, name) && 0 < inum < n && Key(name) !in DirMap(c)
    ensures DirOk(c', n)
  {
    hide DirMap, Key;
    forall j | 0 <= j < Slots(c) && Inum(c, j) != 0 ensures Key(NameOf(c, j)) != Key(name) {
      Hit(c, n, j);
    }
  }

  /** dirlink into a dead entry, or one past the end, adds the name to the map. */
  lemma LinkMap(c: seq<byte>, n: nat, k: nat, inum: nat, name: Name)
    requires DirOk(c, n) && n <= U16 && 0 < inum < n && k <= Slots(c) && (k < Slots(c) ==> Inum(c, k) == 0)
    requires Key(name) !in DirMap(c)
    ensures var c' := Splice(c, DESIZE * k, Dirent(inum, name));
            DirOk(c', n) && DirMap(c') == DirMap(c)[Key(name) := inum]
  {
    hide Splice, Dirent, Inum, NameOf, MapTo, Key;
    var c', m := Splice(c, DESIZE * k, Dirent(inum, name)), DirMap(c)[Key(name) := inum];
    EntryIsSet(c, k, inum, name);
    LinkOk(c, c', n, k, inum, name);
    forall key | key in m ensures exists j :: 0 <= j < Slots(c') && Inum(c', j) != 0 && Key(NameOf(c', j)) == key {
      if key == Key(name) {
        assert Inum(c', k) != 0 && Key(NameOf(c', k)) == key;
      } else {
        var j := MapToOut(c, Slots(c), key);
        assert Inum(c', j) != 0 && Key(NameOf(c', j)) == key;
      }
    }
    forall j | 0 <= j < Slots(c') && Inum(c', j) != 0
      ensures Key(NameOf(c', j)) in m && m[Key(NameOf(c', j))] == Inum(c', j)
    {
      if j != k { Hit(c, n, j); DifferAt(c, c', n, k, inum, name, j); }
    }
    SameMap(c', n, m);
  }

  lemma DifferAt(c: seq<byte>, c': seq<byte>, n: nat, k: nat, inum: nat, name: Name, j: nat)
    requires DirOk(c', n) && EntrySet(c, c', k, inum, name) && inum != 0 && j < Slots(c') && j != k && Inum(c', j) != 0
    ensures Key(NameOf(c', j)) != Key(name)
  {
  }

  /** A map that agrees with the live entries is the directory's map. */
  lemma SameMap(c: seq<byte>, n: nat, m: map<seq<byte>, nat>)
    requires DirOk(c, n)
    requires forall j :: 0 <= j < Slots(c) && Inum(c, j) != 0 ==>
               Key(NameOf(c, j)) in m && m[Key(NameOf(c, j))] == Inum(c, j)
    requires forall key :: key in m ==> exists j :: 0 <= j < Slots(c) && Inum(c, j) != 0 && Key(NameOf(c, j)) == key
    ensures DirMap(c) == m
  {
    hide MapTo;
    forall key ensures key in m <==> key in DirMap(c)
               ensures key in m ==> key in DirMap(c) && DirMap(c)[key] == m[key]
    {
      if key in m {
        var j :| 0 <= j < Slots(c) && Inum(c, j) != 0 && Key(NameOf(c, j)) == key;
        MapToIn(c, n, Slots(c), j);
      }
      if key in DirMap(c) {
        var j := MapToOut(c, Slots(c), key);
      }
    }
  }

  /** Zeroing a live entry, as unlink does, removes its name. */
  lemma UnlinkMap(c: seq<byte>, n: nat, k: nat)
    requires DirOk(c, n) && k < Slots(c) && Inum(c, k) != 0
    ensures var c' := Splice(c, DESIZE * k, Zeros(DESIZE));
            DirOk(c', n) && DirMap(c') == DirMap(c) - {Key(NameOf(c, k))}
  {
    hide Splice, Get;
    var c', e := Splice(c, DESIZE * k, Zeros(DESIZE)), Zeros(DESIZE);
    DecZeros(e[0..2]);
    assert Get(e, 0, 2) == 0 by { GetZero(e); }
    forall j | 0 <= j < Slots(c)
      ensures Inum(c', j) == (if j == k then 0 else Inum(c, j))
      ensures j != k ==> NameOf(c', j) == NameOf(c, j)
    {
      SpliceAt(c, k, e, j);
    }
    SpliceAt(c, k, e, 0);
    assert DirOk(c', n);
    SameMap(c', n, DirMap(c) - {Key(NameOf(c, k))}) by {
      hide MapTo;
      forall key | key in DirMap(c) && key != Key(NameOf(c, k))
        ensures exists j :: 0 <= j < Slots(c') && Inum(c', j) != 0 && Key(NameOf(c', j)) == key
      {
        var j := MapToOut(c, Slots(c), key);
        assert Inum(c', j) != 0;
      }
      forall j | 0 <= j < Slots(c') && Inum(c', j) != 0
        ensures Key(NameOf(c', j)) in DirMap(c) && DirMap(c)[Key(NameOf(c', j))] == Inum(c', j)
      {
        MapToIn(c, n, Slots(c), j);
      }
    }
  }

  lemma GetZero(e: seq<byte>)
    requires |e| >= 2 && e[0] == 0 && e[1] == 0
    ensures Get(e, 0, 2) == 0
  {
    DecZeros(e[0..2]);
  }

  /** Two name fields that agree up to `i`, without a NUL there. */
  lemma {:induction false} KeyFrom(a: seq<byte>, i: nat)
    requires i <= |a| && forall j :: 0 <= j < i ==> a[j] != 0
    ensures Key(a) == a[..i] + Key(a[i..])
  {
    if i > 0 {
      KeyFrom(a[1..], i - 1);
      assert a[..i] == [a[0]] + a[1..][..i - 1] && a[1..][i - 1..] == a[i..];
    } else {
      assert a[0..] == a;
    }
  }

  /** The first byte in which two name fields differ tells their names apart. */
  lemma KeyDiffer(a: Name, b: Name, i: nat)
    requires i < DIRSIZ && a[i] != b[i] && forall j :: 0 <= j < i ==> a[j] == b[j] != 0
    ensures Key(a) != Key(b)
  {
    KeyFrom(a, i);
    KeyFrom(b, i);
    assert a[..i] == b[..i];
    var ka, kb := Key(a[i..]), Key(b[i..]);
    assert if a[i] == 0 then ka == [] else |ka| > 0 && ka[0] == a[i];
    assert if b[i] == 0 then kb == [] else |kb| > 0 && kb[0] == b[i];
    assert Key(a)[i..] == ka && Key(b)[i..] == kb;
  }

  lemma KeySame(a: Name, b: Name, i: nat)
    requires i <= DIRSIZ && forall j :: 0 <= j < i ==> a[j] == b[j] != 0
    requires i == DIRSIZ || a[i] == b[i] == 0
    ensures Key(a) == Key(b)
  {
    KeyFrom(a, i);
    KeyFrom(b, i);
    assert a[..i] == b[..i];
    assert i == DIRSIZ ==> a[i..] == b[i..] == [];
  }

  const SLASH: byte := 47

  /** Path parsing: leading slashes dropped, and the length of the element that follows. */
  function Skip(p: seq<byte>): (q: seq<byte>)
    ensures |q| <= |p| && (q != [] ==> q[0] != SLASH) && q == p[|p| - |q|..]
  {
    if p != [] && p[0] == SLASH then Skip(p[1..]) else p
  }

  function ElemLen(p: seq<byte>): (n: nat)
    ensures n <= |p| && (p != [] && p[0] != SLASH ==> n > 0)
  {
    if p == [] || p[0] == SLASH then 0 else 1 + ElemLen(p[1..])
  }

  function Trunc(e: seq<byte>): seq<byte> {
    if |e| > DIRSIZ then e[..DIRSIZ] else e
  }

  /** The non-empty slash-separated components of a path, cut to DIRSIZ bytes. */
  function Comps(p: seq<byte>): (c: seq<seq<byte>>)
    decreases |p|
  {
    var q := Skip(p);
    if q == [] then [] else [Trunc(q[..ElemLen(q)])] + Comps(q[ElemLen(q)..])
  }

  /** Leading slashes do not matter. */
  lemma {:induction false} SkipSkip(p: seq<byte>)
    ensures Skip(Skip(p)) == Skip(p) && Comps(Skip(p)) == Comps(p)
  {
    if p != [] && p[0] == SLASH { SkipSkip(p[1..]); }
  }

  predicate IsDir(d: Dinode) {
    d.typ == T_DIR && WfFile(d)
  }

  const ROOTINO := 1

  /** Every directory is in order. */
  ghost predicate Dirs(V: seq<Block>, T: seq<Dinode>) {
    forall i {:trigger T[i]} :: 0 <= i < |T| && IsDir(T[i]) ==> DirOk(Content(V, T[i]), |T|)
  }

  /** An allocated inode has a link. */
  ghost predicate Linked(T: seq<Dinode>) {
    forall i {:trigger T[i]} :: 0 <= i < |T| && T[i].typ != 0 ==> T[i].nlink != 0
  }

  /** The inode that entry `k` of directory `i` names; 0 for none. */
  ghost function Ent(V: seq<Block>, T: seq<Dinode>, i: nat, k: nat): nat {
    if i < |T| && IsDir(T[i]) && k < Slots(Content(V, T[i])) then Inum(Content(V, T[i]), k) else 0
  }

  /** No directory entry names `j`. */
  ghost predicate Nameless(V: seq<Block>, T: seq<Dinode>, j: nat) {
    forall a: nat, b: nat :: Ent(V, T, a, b) != j
  }

  /** Directory `i` as a map from names to inode numbers. */
  ghost function Listing(V: seq<Block>, T: seq<Dinode>, i: nat): map<seq<byte>, nat> {
    if i < |T| && IsDir(T[i]) then DirMap(Content(V, T[i])) else map[]
  }

  /** Entries name allocated inodes, and a file has one name: `names` says where. */
  ghost predicate Named(V: seq<Block>, T: seq<Dinode>, names: map<nat, Slot>) {
    && 1 < |T| && IsDir(T[ROOTINO])
    && forall i: nat, k: nat {:trigger Ent(V, T, i, k)} :: Ent(V, T, i, k) != 0 ==>
         var j := Ent(V, T, i, k);
         j < |T| && T[j].typ != 0 && (T[j].typ != T_DIR ==> j in names && names[j] == Slot(i, k))
  }

  /** The directory tree is in order. */
  ghost predicate Tidy(V: seq<Block>, T: seq<Dinode>, names: map<nat, Slot>) {
    Dirs(V, T) && Linked(T) && Named(V, T, names)
  }

  /** Directories read the same and inodes keep their types. */
  ghost predicate SameDirs(V: seq<Block>, T: seq<Dinode>, V': seq<Block>, T': seq<Dinode>) {
    && |T'| == |T|
    && forall i {:trigger T'[i]} :: 0 <= i < |T| ==>
         && T'[i].typ == T[i].typ && (IsDir(T'[i]) <==> IsDir(T[i]))
         && (IsDir(T[i]) ==> Content(V', T'[i]) == Content(V, T[i]))
  }

  lemma TidySame(V: seq<Block>, T: seq<Dinode>, V': seq<Block>, T': seq<Dinode>, names: map<nat, Slot>)
    requires Dirs(V, T) && Named(V, T, names) && SameDirs(V, T, V', T')
    ensures Dirs(V', T') && Named(V', T', names)
    ensures forall j :: Nameless(V, T, j) ==> Nameless(V', T', j)
    ensures forall i :: Listing(V', T', i) == Listing(V, T, i)
  {
    hide DirOk, Content, Inum;
    forall i: nat, k: nat ensures Ent(V', T', i, k) == Ent(V, T, i, k) {
      if i < |T| { assert T'[i].typ == T[i].typ; }
    }
    forall i | 0 <= i < |T'| && IsDir(T'[i]) ensures DirOk(Content(V', T'[i]), |T'|) {
      assert DirOk(Content(V, T[i]), |T|);
    }
    assert IsDir(T'[ROOTINO]) by { assert T'[ROOTINO].typ == T[ROOTINO].typ; }
    forall i: nat ensures Listing(V', T', i) == Listing(V, T, i) {
      if i < |T| { assert T'[i].typ == T[i].typ; }
    }
  }

  /** A live entry names an allocated inode. */
  lemma NamedAt(V: seq<Block>, T: seq<Dinode>, names: map<nat, Slot>, i: nat, k: nat)
    requires Named(V, T, names) && i < |T| && IsDir(T[i]) && k < Slots(Content(V, T[i]))
             && Inum(Content(V, T[i]), k) != 0
    ensures Inum(Content(V, T[i]), k) < |T| && T[Inum(Content(V, T[i]), k)].typ != 0
  {
    assert Ent(V, T, i, k) != 0;
  }

  /** Directory `i` has gained an entry for the nameless file `j`. */
  lemma TidyLink(V: seq<Block>, T: seq<Dinode>, V': seq<Block>, T': seq<Dinode>, names: map<nat, Slot>, i: nat, k: nat,
      j: nat, name: Name)
    requires Tidy(V, T, names) && Linked(T') && |T'| == |T| <= U16 && i < |T| && IsDir(T[i]) && IsDir(T'[i])
    requires k <= Slots(Content(V, T[i])) && (k < Slots(Content(V, T[i])) ==> Inum(Content(V, T[i]), k) == 0)
    requires Key(name) !in DirMap(Content(V, T[i])) && 0 < j < |T| && T[j].typ != 0 && T[j].typ != T_DIR
    requires Nameless(V, T, j)
    requires Content(V', T'[i]) == Splice(Content(V, T[i]), DESIZE * k, Dirent(j, name))
    requires OnlyFile(V, T, V', T', i)
    ensures Tidy(V', T', names[j := Slot(i, k)])
    ensures Listing(V', T', i) == Listing(V, T, i)[Key(name) := j]
    ensures (forall m :: 0 <= m < k ==> Inum(Content(V, T[i]), m) != 0) ==>
              Entered(Content(V, T[i]), Content(V', T'[i]), Key(name), j)
  {
    hide Content, Inum, Splice, Dirent, DirMap, DirOk, Key;
    var c := Content(V, T[i]);
    LinkMap(c, |T|, k, j, name);
    assert |c| % DESIZE == 0 by { DirWhole(c, |T|); }
    if forall m :: 0 <= m < k ==> Inum(c, m) != 0 { EnterIs(c, |T|, k, j, name); }
    EntryParts(j, name);
    forall a: nat, b: nat ensures Ent(V', T', a, b) == if a == i && b == k then j else Ent(V, T, a, b) {
      if a == i {
        SpliceAt(c, k, Dirent(j, name), b);
      } else if a < |T| {
        assert T'[a] == T[a];
      }
    }
    forall a | 0 <= a < |T'| && IsDir(T'[a]) ensures DirOk(Content(V', T'[a]), |T'|) {
      if a != i { assert T'[a] == T[a] && DirOk(Content(V, T[a]), |T|); }
    }
  }

  /** No entry of the directory is dead. */
  ghost predicate AllLive(c: seq<byte>) {
    forall k :: 0 <= k < Slots(c) ==> Inum(c, k) != 0
  }

  /** Entry `k` of directory `c`, the first dead one, or the next if none is dead, has been set to
      `inum` and a name that counts up to `key`; no other byte has changed. */
  ghost predicate EnteredAt(c: seq<byte>, c': seq<byte>, k: nat, key: seq<byte>, inum: nat) {
    && k <= |c| / 16 && |c| % 16 == 0 && (forall j :: 0 <= j < k ==> Inum(c, j) != 0)
    && (if k < |c| / 16 then |c'| == |c| && Inum(c, k) == 0 else |c'| == |c| + 16)
    && Inum(c', k) == inum && Key(NameOf(c', k)) == key
    && forall b :: 0 <= b < |c| && !(16 * k <= b < 16 * k + 16) ==> c'[b] == c[b]
  }

  ghost predicate Entered(c: seq<byte>, c': seq<byte>, key: seq<byte>, inum: nat) {
    exists k: nat :: EnteredAt(c, c', k, key, inum)
  }

  /** A live entry of the name `key` has become sixteen zero bytes; no other byte has changed. */
  ghost predicate Erased(c: seq<byte>, c': seq<byte>, k: nat, key: seq<byte>) {
    && |c'| == |c| && 16 * k + 16 <= |c| && Inum(c, k) != 0 && Key(NameOf(c, k)) == key
    && forall b :: 0 <= b < |c| ==> c'[b] == if 16 * k <= b < 16 * k + 16 then 0 else c[b]
  }

  lemma EnterIs(c: seq<byte>, n: nat, k: nat, inum: nat, name: Name)
    requires DirOk(c, n) && k <= Slots(c) && inum < U16 && forall j :: 0 <= j < k ==> Inum(c, j) != 0
    requires k < Slots(c) ==> Inum(c, k) == 0
    ensures Entered(c, Splice(c, DESIZE * k, Dirent(inum, name)), Key(name), inum)
  {
    hide Inum, Key, Dirent;
    var e := Dirent(inum, name);
    SpliceAt(c, k, e, k);
    EntryParts(inum, name);
    assert EnteredAt(c, Splice(c, DESIZE * k, e), k, Key(name), inum);
  }

  lemma EraseIs(c: seq<byte>, k: nat)
    requires DESIZE * (k + 1) <= |c| && Inum(c, k) != 0
    ensures Erased(c, Splice(c, DESIZE * k, Zeros(DESIZE)), k, Key(NameOf(c, k)))
  {
    hide Inum, Key;
  }

  /** The number of an entry is in its first two bytes, the name in the fourteen others. */
  lemma EntryLayout(c: seq<byte>, k: nat)
    requires 16 * (k + 1) <= |c|
    ensures Inum(c, k) == c[16 * k] as int + 0x100 * c[16 * k + 1] as int
    ensures |NameOf(c, k)| == 14 && forall b :: 0 <= b < 14 ==> NameOf(c, k)[b] == c[16 * k + 2 + b]
  {
    LittleEndian(c[16 * k..16 * k + 2]);
  }

  /** An erased entry is dead, whichever entries were live before. */
  lemma ErasedDead(c: seq<byte>, c': seq<byte>, k: nat, key: seq<byte>)
    requires Erased(c, c', k, key)
    ensures !AllLive(c') && |c'| == |c|
  {
    EntryLayout(c', k);
  }

  /** Whether a directory grows. */
  lemma EnteredSize(c: seq<byte>, c': seq<byte>, key: seq<byte>, inum: nat)
    requires Entered(c, c', key, inum)
    ensures |c'| == if AllLive(c) then |c| + 16 else |c|
  {
    hide Inum, Key;
    var k: nat :| EnteredAt(c, c', k, key, inum);
    assert k < |c| / 16 ==> Inum(c, k) == 0;
  }

  lemma DirWhole(c: seq<byte>, n: nat)
    requires DirOk(c, n)
    ensures |c| % DESIZE == 0 && DESIZE * Slots(c) == |c|
  {
  }

  /** The entry of file `j` has been zeroed: the name is gone, and no entry names `j`. */
  lemma TidyUnlink(V: seq<Block>, T: seq<Dinode>, V': seq<Block>, T': seq<Dinode>, names: map<nat, Slot>, i: nat,
      k: nat, j: nat)
    requires Tidy(V, T, names) && Linked(T') && |T'| == |T| && i < |T| && IsDir(T[i]) && IsDir(T'[i])
    requires k < Slots(Content(V, T[i])) && Inum(Content(V, T[i]), k) == j != 0 && j < |T| && T[j].typ != T_DIR
    requires Content(V', T'[i]) == Splice(Content(V, T[i]), DESIZE * k, Zeros(DESIZE))
    requires OnlyFile(V, T, V', T', i)
    ensures Tidy(V', T', names) && Nameless(V', T', j)
    ensures Listing(V', T', i) == Listing(V, T, i) - {Key(NameOf(Content(V, T[i]), k))}
    ensures Erased(Content(V, T[i]), Content(V', T'[i]), k, Key(NameOf(Content(V, T[i]), k)))
  {
    hide Content, Inum, Splice, DirMap, DirOk, Key, Erased;
    var c := Content(V, T[i]);
    DirWhole(c, |T|);
    UnlinkMap(c, |T|, k);
    EraseIs(c, k);
    GetZero(Zeros(DESIZE));
    assert Ent(V, T, i, k) == j;
    forall a: nat, b: nat ensures Ent(V', T', a, b) == if a == i && b == k then 0 else Ent(V, T, a, b) {
      if a == i {
        SpliceAt(c, k, Zeros(DESIZE), b);
      } else if a < |T| {
        assert T'[a] == T[a];
      }
    }
    forall a | 0 <= a < |T'| && IsDir(T'[a]) ensures DirOk(Content(V', T'[a]), |T'|) {
      if a != i { assert T'[a] == T[a] && DirOk(Content(V, T[a]), |T|); }
    }
  }

  /** Freeing a nameless file, or giving a free inode a type. */
  lemma TidyRetype(V: seq<Block>, T: seq<Dinode>, V': seq<Block>, T': seq<Dinode>, names: map<nat, Slot>, j: nat)
    requires Dirs(V, T) && Named(V, T, names) && Linked(T') && j < |T| && |T'| == |T|
    requires T[j].typ != T_DIR && T'[j].typ != T_DIR && Nameless(V, T, j)
    requires OnlyFile(V, T, V', T', j)
    ensures Tidy(V', T', names) && Nameless(V', T', j) && forall i :: i != j ==> Listing(V', T', i) == Listing(V, T, i)
  {
    hide DirOk, Content, Inum;
    forall a: nat, b: nat ensures Ent(V', T', a, b) == Ent(V, T, a, b) {
      if a < |T| && a != j { assert T'[a] == T[a]; }
    }
    forall a | 0 <= a < |T'| && IsDir(T'[a]) ensures DirOk(Content(V', T'[a]), |T'|) {
      assert T'[a] == T[a] && DirOk(Content(V, T[a]), |T|);
    }
    assert T'[ROOTINO] == T[ROOTINO];
    forall i: nat | i != j ensures Listing(V', T', i) == Listing(V, T, i) {
      if i < |T| { assert T'[i] == T[i]; }
    }
  }

  /** Only file `j` has changed, and it keeps its type: no directory reads differently. */
  lemma TidyFile(V: seq<Block>, T: seq<Dinode>, V': seq<Block>, T': seq<Dinode>, names: map<nat, Slot>, j: nat)
    requires Dirs(V, T) && Named(V, T, names) && OnlyFile(V, T, V', T', j) && j < |T|
    requires T[j].typ != T_DIR && T'[j].typ == T[j].typ
    ensures Dirs(V', T') && Named(V', T', names)
    ensures forall m :: Nameless(V, T, m) ==> Nameless(V', T', m)
    ensures forall i :: Listing(V', T', i) == Listing(V, T, i)
  {
    hide Named, DirOk, Content;
    assert SameDirs(V, T, V', T') by {
      forall i | 0 <= i < |T|
        ensures T'[i].typ == T[i].typ && (IsDir(T'[i]) <==> IsDir(T[i]))
                && (IsDir(T[i]) ==> Content(V', T'[i]) == Content(V, T[i]))
      {
        if i != j { assert T'[i] == T[i]; }
      }
    }
    TidySame(V, T, V', T', names);
  }

  lemma FreeUnnamed(V: seq<Block>, T: seq<Dinode>, names: map<nat, Slot>, j: nat)
    requires Named(V, T, names) && 0 < j < |T| && T[j].typ == 0
    ensures Nameless(V, T, j)
  {
  }

  /** The fields of an entry read into a buffer. */
  lemma EntryRead(c: seq<byte>, k: nat)
    requires DESIZE * (k + 1) <= |c|
    ensures var e := c[DESIZE * k..DESIZE * k + DESIZE];
            Get(e, 0, 2) == Inum(c, k) && e[2..] == NameOf(c, k)
  {
    assert c[DESIZE * k..DESIZE * k + DESIZE][0..2] == c[DESIZE * k..DESIZE * k + 2];
  }

  /** The name comparison of dirlookup. */
  method MatchName(name: Name, other: Name) returns (same: bool)
    ensures same <==> Key(name) == Key(other)
  {
    var i := 0;
    while i < DIRSIZ
      invariant 0 <= i <= DIRSIZ
      invariant forall j :: 0 <= j < i ==> name[j] == other[j] != 0
    {
      if name[i] != other[i] {
        KeyDiffer(name, other, i);
        return false;
      }
      if name[i] == 0 {
        KeySame(name, other, i);
        return true;
      }
      i := i + 1;
    }
    KeySame(name, other, i);
    return true;
  }

  /** The live entry at offset `off` carries `name` and inode number `j`, as the map says. */
  ghost predicate FoundAt(c: seq<byte>, name: Name, j: nat, off: nat) {
    && off % DESIZE == 0 && off + DESIZE <= |c|
    && Inum(c, off / DESIZE) == j != 0 && Key(NameOf(c, off / DESIZE)) == Key(name)
    && Key(name) in DirMap(c) && DirMap(c)[Key(name)] == j
  }

  /** What dirlookup finds: the map's answer. */
  lemma Hit(c: seq<byte>, n: nat, k: nat)
    requires DirOk(c, n) && k < Slots(c) && Inum(c, k) != 0
    ensures Key(NameOf(c, k)) in DirMap(c) && DirMap(c)[Key(NameOf(c, k))] == Inum(c, k) < n
  {
    MapToIn(c, n, Slots(c), k);
  }

  lemma Miss(c: seq<byte>, key: seq<byte>)
    requires forall k :: 0 <= k < Slots(c) && Inum(c, k) != 0 ==> Key(NameOf(c, k)) != key
    ensures key !in DirMap(c)
  {
    if key in DirMap(c) { var j := MapToOut(c, Slots(c), key); }
  }

  /** The inode that `key` names in directory `i`; 0 when there is none. */
  ghost function Next(V: seq<Block>, T: seq<Dinode>, i: nat, key: seq<byte>): nat {
    if key in Listing(V, T, i) then Listing(V, T, i)[key] else 0
  }

  /** Following names through directories from inode `i`; 0 is failure. */
  ghost function Walk(V: seq<Block>, T: seq<Dinode>, i: nat, comps: seq<seq<byte>>): nat
    decreases |comps|
  {
    if comps == [] || i == 0 then i else Walk(V, T, Next(V, T, i, comps[0]), comps[1..])
  }

  ghost function NameI(V: seq<Block>, T: seq<Dinode>, path: seq<byte>): nat {
    Walk(V, T, ROOTINO, Comps(path))
  }

  /** The directory that holds the last component. */
  ghost function NameIParent(V: seq<Block>, T: seq<Dinode>, path: seq<byte>): nat {
    var c := Comps(path);
    if c == [] then 0
    else
      var d := Walk(V, T, ROOTINO, c[..|c| - 1]);
      if 0 < d < |T| && IsDir(T[d]) then d else 0
  }

  /** The walk of namex in search of the parent, component by component. */
  ghost function WalkParent(V: seq<Block>, T: seq<Dinode>, i: nat, comps: seq<seq<byte>>): nat
    decreases |comps|
  {
    if comps == [] || i == 0 || i >= |T| || !IsDir(T[i]) then 0
    else if |comps| == 1 then i
    else WalkParent(V, T, Next(V, T, i, comps[0]), comps[1..])
  }

  lemma {:induction false} WalkParentIs(V: seq<Block>, T: seq<Dinode>, i: nat, comps: seq<seq<byte>>)
    requires comps != []
    ensures WalkParent(V, T, i, comps) ==
            var d := Walk(V, T, i, comps[..|comps| - 1]);
            if 0 < d < |T| && IsDir(T[d]) then d else 0
    decreases |comps|
  {
    if |comps| > 1 && i != 0 {
      var n := Next(V, T, i, comps[0]);
      assert comps[..|comps| - 1][1..] == comps[1..][..|comps[1..]| - 1];
      if i < |T| && IsDir(T[i]) {
        WalkParentIs(V, T, n, comps[1..]);
      } else {
        assert n == 0;
      }
    }
  }

  lemma ParentIs(V: seq<Block>, T: seq<Dinode>, path: seq<byte>)
    ensures NameIParent(V, T, path) == WalkParent(V, T, ROOTINO, Comps(path))
  {
    if Comps(path) != [] { WalkParentIs(V, T, ROOTINO, Comps(path)); }
  }

  /** One component further. */
  lemma WalkStep(V: seq<Block>, T: seq<Dinode>, i: nat, key: seq<byte>, rest: seq<seq<byte>>)
    requires 0 < i < |T|
    ensures Walk(V, T, i, [key] + rest) == Walk(V, T, Next(V, T, i, key), rest)
    ensures WalkParent(V, T, i, [key] + rest) ==
            if !IsDir(T[i]) then 0 else if rest == [] then i else WalkParent(V, T, Next(V, T, i, key), rest)
    ensures Walk(V, T, 0, rest) == WalkParent(V, T, 0, rest) == 0
    ensures Next(V, T, i, key) != 0 ==> IsDir(T[i])
  {
    assert ([key] + rest)[1..] == rest;
  }

  /** A zero byte ends the name field. */
  lemma KeyOf(e: seq<byte>, name: Name)
    requires forall j :: 0 <= j < |e| ==> e[j] != 0
    requires if |e| >= DIRSIZ then name == e[..DIRSIZ] else name[..|e|] == e && name[|e|] == 0
    ensures Key(name) == Trunc(e)
  {
    var n := if |e| >= DIRSIZ then DIRSIZ else |e|;
    KeyFrom(name, n);
    assert name[..n] == Trunc(e);
    assert n < DIRSIZ ==> name[n..][0] == 0;
    assert n == DIRSIZ ==> name[n..] == [];
  }

  /** A path without a NUL, as copied in by argstr. */
  ghost predicate IsPath(path: seq<byte>) {
    forall j :: 0 <= j < |path| ==> path[j] != 0
  }

  lemma SkipOne(p: seq<byte>)
    ensures Skip(p) == if p != [] && p[0] == SLASH then Skip(p[1..]) else p
  {
  }

  lemma ElemOne(p: seq<byte>)
    ensures ElemLen(p) == if p == [] || p[0] == SLASH then 0 else 1 + ElemLen(p[1..])
  {
  }

  /** `while(*path == '/') path++` */
  method SkipSlashes(path: seq<byte>, pos: nat) returns (p: nat)
    requires pos <= |path|
    ensures pos <= p <= |path| && path[p..] == Skip(path[pos..])
  {
    hide Skip;
    p := pos;
    while p < |path| && path[p] == SLASH
      invariant pos <= p <= |path| && Skip(path[p..]) == Skip(path[pos..])
    {
      assert path[p..][1..] == path[p + 1..];
      SkipOne(path[p..]);
      p := p + 1;
    }
    SkipOne(path[p..]);
  }

  /** `while(*path != '/' && *path != 0) path++` */
  method SkipName(path: seq<byte>, s: nat) returns (p: nat)
    requires s <= |path|
    ensures s <= p <= |path| && p - s == ElemLen(path[s..])
  {
    hide ElemLen;
    p := s;
    while p < |path| && path[p] != SLASH
      invariant s <= p <= |path| && ElemLen(path[s..]) == p - s + ElemLen(path[p..])
    {
      assert path[p..][1..] == path[p + 1..];
      ElemOne(path[p..]);
      p := p + 1;
    }
    ElemOne(path[p..]);
  }

  lemma CompsSkip(p: seq<byte>)
    ensures Comps(p) == if Skip(p) == [] then []
                        else [Trunc(Skip(p)[..ElemLen(Skip(p))])] + Comps(Skip(p)[ElemLen(Skip(p))..])
  {
  }

  lemma NoComps(p: seq<byte>)
    ensures Comps(p) == [] <==> Skip(p) == []
  {
  }

  lemma SliceDrop(s: seq<byte>, a: nat, b: nat)
    requires a <= b <= |s|
    ensures s[a..][..b - a] == s[a..b] && s[a..][b - a..] == s[b..]
  {
  }

  /** One step of the component list, at the positions skipelem computes. */
  lemma CompsAt(path: seq<byte>, pos: nat, s: nat, p: nat, next: nat)
    requires pos <= s <= p <= next <= |path| && s < |path|
    requires path[s..] == Skip(path[pos..]) && p - s == ElemLen(path[s..]) && path[next..] == Skip(path[p..])
    ensures Comps(path[pos..]) == [Trunc(path[s..p])] + Comps(path[next..])
    ensures next == |path| <==> Comps(path[next..]) == []
  {
    hide Skip, ElemLen, Trunc, Comps;
    CompsSkip(path[pos..]);
    SliceDrop(path, s, p);
    SkipSkip(path[p..]);
    NoComps(path[p..]);
  }

  /** The component `e` copied into the name buffer. */
  method CopyName(e: seq<byte>, name0: Name) returns (name: Name)
    requires IsPath(e)
    ensures Key(name) == Trunc(e)
  {
    hide Key;
    name := name0;
    var len := |e|;
    if len >= DIRSIZ {
      name := e[..DIRSIZ];
    } else {
      name := e + name[len..];
      name := name[len := 0];
    }
    KeyOf(e, name);
  }

  /** skipelem at `pos`: the next component in the name buffer, and the position after it and
      the slashes that follow. The buffer keeps what the new name does not overwrite. */
  method SkipElem(path: seq<byte>, pos: nat, name0: Name) returns (more: bool, next: nat, name: Name)
    requires IsPath(path) && pos <= |path|
    ensures !more ==> Comps(path[pos..]) == []
    ensures more ==> pos < next <= |path| && Comps(path[pos..]) == [Key(name)] + Comps(path[next..])
                     && (next == |path| <==> Comps(path[next..]) == [])
  {
    hide Skip, ElemLen, Key, Trunc, Comps;
    name := name0;
    var s := SkipSlashes(path, pos);
    if s == |path| { SkipNone(path[pos..]); return false, s, name; }
    var p := SkipName(path, s);
    name := CopyName(path[s..p], name0);
    next := SkipSlashes(path, p);
    CompsAt(path, pos, s, p, next);
    return true, next, name;
  }

  lemma SkipNone(p: seq<byte>)
    requires Skip(p) == []
    ensures Comps(p) == []
  {
  }
}
