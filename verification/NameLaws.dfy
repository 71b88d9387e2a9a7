/** What names, open modes and directories mean to the callers of kernel/sysfile.c: laws about whole
    paths, mode words and directory sizes. */
module NameLaws {
  import opened Bytes
  import opened FsSpec
  import opened FsState
  import opened Dir
  import opened Fs
  import opened NameOps
  import Layout

  predicate NoSlash(e: seq<byte>) {
    forall k :: 0 <= k < |e| ==> e[k] != 47
  }

  /** A name of more than fourteen bytes counts up to there. */
  function Cut14(e: seq<byte>): seq<byte> {
    if |e| > 14 then e[..14] else e
  }

  lemma {:induction false} WholeElem(e: seq<byte>, rest: seq<byte>)
    requires NoSlash(e) && (rest == [] || rest[0] == 47)
    ensures ElemLen(e + rest) == |e|
  {
    if e == [] {
      assert e + rest == rest;
    } else {
      assert (e + rest)[1..] == e[1..] + rest && (e + rest)[0] == e[0];
      WholeElem(e[1..], rest);
    }
  }

  /** The first element of a path is what is before its first slash. */
  lemma {:induction false} ElemIs(p: seq<byte>)
    ensures NoSlash(p[..ElemLen(p)]) && (ElemLen(p) < |p| ==> p[ElemLen(p)] == 47)
  {
    if p != [] && p[0] != SLASH {
      ElemIs(p[1..]);
      assert p[..ElemLen(p)] == [p[0]] + p[1..][..ElemLen(p) - 1];
    }
  }

  lemma SlashFirst(p: seq<byte>)
    requires p != [] && p[0] == 47
    ensures Comps(p) == Comps(p[1..])
  {
    assert Skip(p) == Skip(p[1..]);
  }

  lemma NameFirst(e: seq<byte>, rest: seq<byte>)
    requires e != [] && NoSlash(e) && (rest == [] || rest[0] == 47)
    ensures Comps(e + rest) == [Cut14(e)] + Comps(rest)
  {
    WholeElem(e, rest);
    assert (e + rest)[0] == e[0] && Skip(e + rest) == e + rest;
    assert (e + rest)[..|e|] == e && (e + rest)[|e|..] == rest;
  }

  lemma Nothing()
    ensures Comps([]) == []
  {
  }

  lemma ElemSome(p: seq<byte>)
    requires p != [] && p[0] != 47
    ensures 0 < ElemLen(p) <= |p|
  {
  }

  /** A path is the names between its slashes: there are none in the empty path, a slash at the end
      adds none, and a slash and a name add that name. */
  lemma {:induction false} PathIs(p: seq<byte>, e: seq<byte>)
    requires NoSlash(e)
    ensures Comps([]) == [] && Comps(p + [47]) == Comps(p)
    ensures e != [] ==> Comps(e) == [Cut14(e)] && Comps(p + [47] + e) == Comps(p) + [Cut14(e)]
    decreases |p|
  {
    hide Comps, Skip, ElemLen, Cut14;
    Nothing();
    var t := [47] + e;
    if e != [] {
      NameFirst(e, []);
      assert e + [] == e;
    }
    SlashFirst(t);
    SlashFirst([47]);
    assert t[1..] == e && [47][1..] == [];
    assert p + [47] + e == p + t;
    if p == [] {
      assert p + [47] == [47] && p + t == t;
    } else if p[0] == 47 {
      PathIs(p[1..], e);
      SlashFirst(p);
      SlashFirst(p + [47]);
      SlashFirst(p + t);
      assert (p + [47])[1..] == p[1..] + [47] && (p + t)[1..] == p[1..] + [47] + e;
    } else {
      var n := ElemLen(p);
      var a, b := p[..n], p[n..];
      ElemIs(p);
      ElemSome(p);
      PathIs(b, e);
      assert p == a + b && p + [47] == a + (b + [47]) && p + t == a + (b + [47] + e);
      NameFirst(a, b);
      NameFirst(a, b + [47]);
      NameFirst(a, b + [47] + e);
    }
  }

  /** The mode bits of include/fs.h: O_WRONLY is 1, O_RDWR is 2 and O_CREATE 0x200. */
  lemma ModeBits(omode: nat)
    ensures WriteOnly(omode) <==> omode % 2 == 1
    ensures ReadWrite(omode) <==> omode / 2 % 2 == 1
    ensures Creates(omode) <==> omode / 0x200 % 2 == 1
  {
    Layout.BitAt(omode);
  }

  /** Inode 1 is the root, which the empty path and any path of slashes stand for; such a path has no
      parent. */
  lemma RootIs(V: seq<Block>, T: seq<Dinode>, path: seq<byte>)
    requires forall k :: 0 <= k < |path| ==> path[k] == 47
    ensures NameI(V, T, path) == 1 && NameIParent(V, T, path) == 0
  {
    RootComps(path);
  }

  lemma {:induction false} RootComps(path: seq<byte>)
    requires forall k :: 0 <= k < |path| ==> path[k] == 47
    ensures Comps(path) == []
  {
    hide Comps;
    Nothing();
    if path != [] {
      RootComps(path[1..]);
      SlashFirst(path);
    }
  }

  /** The inode that a path stands for and the directory that holds it. */
  lemma ParentHas(V: seq<Block>, T: seq<Dinode>, path: seq<byte>)
    ensures var d := NameIParent(V, T, path);
            d != 0 ==> Comps(path) != [] && d < |T| && T[d].typ == 1
                       && NameI(V, T, path) == Next(V, T, d, Comps(path)[|Comps(path)| - 1])
  {
    hide Next, Comps, Walk;
    if Comps(path) != [] { var p, k := PathLast(V, T, path); }
  }

  /** What sys_open decides, in terms of what the path stands for. Without O_CREATE there must be
      something, which for a directory may only be read. With O_CREATE the parent must be a directory;
      what exists under the name is opened, unless it is a directory to be written, and only if there is
      nothing is a file made. */
  lemma OpenDecides(V: seq<Block>, T: seq<Dinode>, path: seq<byte>, omode: nat)
    ensures var i, d, v := NameI(V, T, path), NameIParent(V, T, path), Resolve(V, T, path, omode);
            var dir := i < |T| && T[i].typ == 1;
            if omode / 0x200 % 2 == 0 then
              v == if i != 0 && (dir ==> omode == 0) then Existing(i) else Refused
            else if d == 0 then v == Refused
            else if i == 0 then v == Fresh(d, Comps(path)[|Comps(path)| - 1])
            else v == if dir && (omode % 2 == 1 || omode / 2 % 2 == 1) then Refused else Existing(i)
  {
    hide NameI, NameIParent, Next, Comps, Bit;
    ModeBits(omode);
    ParentHas(V, T, path);
  }

  /** What sys_unlink aims at: what the path stands for, if that is no directory and the last name is
      neither "." nor "..". */
  lemma UnlinkDecides(V: seq<Block>, T: seq<Dinode>, path: seq<byte>)
    ensures var i, d, t := NameI(V, T, path), NameIParent(V, T, path), UnlinkTarget(V, T, path);
            if d == 0 || i == 0 || (i < |T| && T[i].typ == 1) then t == NoTarget
            else
              var key := Comps(path)[|Comps(path)| - 1];
              t == if key == [46] || key == [46, 46] then NoTarget else Target(d, key, i)
  {
    hide NameI, NameIParent, Next, Comps;
    ParentHas(V, T, path);
  }

  /** Making a file makes the directory larger, by one entry, only if all its entries are live. */
  lemma CreatedSize(V: seq<Block>, T: seq<Dinode>, V': seq<Block>, T': seq<Dinode>, d: nat, key: seq<byte>, j: nat)
    requires Created(V, T, V', T', d, key, j)
    ensures d < |T| == |T'| && IsDir(T[d])
            && T'[d].size == if AllLive(Content(V, T[d])) then T[d].size + 16 else T[d].size
  {
    hide Listing, Entered, AllLive, Content;
    EnteredSize(Content(V, T[d]), Content(V', T'[d]), key, j);
  }

  /** A new file is a regular one (T_FILE is 2) of no bytes and no blocks, with one link. */
  lemma CreatedFile(V: seq<Block>, T: seq<Dinode>, V': seq<Block>, T': seq<Dinode>, d: nat, key: seq<byte>, j: nat)
    requires Created(V, T, V', T', d, key, j)
    ensures j < |T| == |T'| && T[j].typ == 0 && T'[j].typ == 2 && T'[j].nlink == 1 && T'[j].size == 0
            && T'[j].major == T'[j].minor == 0 && |T'[j].addrs| == 13 && forall k :: 0 <= k < 13 ==> T'[j].addrs[k] == 0
  {
    hide Listing, Entered, Content;
  }

  /** After an unlink there is room for a name: making a file in that directory does not make it
      larger, so creating and unlinking in turn never fills it. */
  lemma RoomAfterUnlink(V: seq<Block>, T: seq<Dinode>, V1: seq<Block>, T1: seq<Dinode>, V2: seq<Block>, T2: seq<Dinode>,
      d: nat, key: seq<byte>, j: nat, key2: seq<byte>, j2: nat)
    requires Unlinked(V, T, V1, T1, d, key, j)
    ensures !DirFull(V1, T1, d)
    ensures Created(V1, T1, V2, T2, d, key2, j2) ==> d < |T| == |T2| && T2[d].size == T[d].size
  {
    hide Listing, Entered, Content, Erased;
    var k: nat :| Erased(Content(V, T[d]), Content(V1, T1[d]), k, key);
    ErasedDead(Content(V, T[d]), Content(V1, T1[d]), k, key);
    if Created(V1, T1, V2, T2, d, key2, j2) { CreatedSize(V1, T1, V2, T2, d, key2, j2); }
  }
}
