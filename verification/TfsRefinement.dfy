/** Each API call, on the concrete tables, is the call of the abstract file system. */
module TfsRefinement {
  import opened Bytes
  import opened Directory
  import opened LinkGraph
  import opened Tfs
  import opened TfsInvariant
  import opened AbstractFs

  function BlockBytes(s: State, b: int): seq<byte> {
    if 0 <= b < |s.blocks| then s.blocks[b] else []
  }

  function Prefix(b: seq<byte>, n: nat): seq<byte> {
    if n <= |b| then b[..n] else b
  }

  function NodeOf(s: State, i: int): Node
    requires Live(s, i)
  {
    var bytes := BlockBytes(s, s.inodes[i].block);
    if s.inodes[i].kind == Link then LinkNode(CStr(bytes)) else FileNode(Prefix(bytes, s.inodes[i].size))
  }

  ghost function NodesOf(s: State): map<int, Node> {
    map i | ROOT < i < |s.inodes| && Live(s, i) :: NodeOf(s, i)
  }

  ghost function CursorsOf(s: State): map<int, Cursor> {
    map h | 0 <= h < |s.handles| && OpenHandle(s, h) :: Cursor(s.handles[h].inum, s.handles[h].offset)
  }

  ghost function Abs(s: State): AbsFs {
    AbsFs(NameMap(s.dir), NodesOf(s), CursorsOf(s))
  }

  function Free(taken: seq<bool>): Option<nat> {
    if FirstFree(taken) == |taken| then None else Some(FirstFree(taken))
  }

  function AvailOf(s: State): Avail {
    Avail(Free(s.inodeTaken), FirstFree(s.blockTaken) < |s.blockTaken|, FreeSlot(s.dir) < |s.dir|, Free(s.handleTaken))
  }

  // ---------------------------------------------------------------- the abstract view

  lemma NameLive(s: State, n: Name)
    requires Core(s) && n in NameMap(s.dir)
    ensures NameMap(s.dir)[n] in NodesOf(s)
  {
    FindIffNamed(s.dir, n);
    assert ([SLASH] + n)[1..] == n;
    LookupLive(s, [SLASH] + n);
  }

  /** A live file's bytes are exactly as many as its size. */
  lemma FileBytes(s: State, i: int)
    requires Core(s) && ROOT < i && IsFile(s, i)
    ensures NodeOf(s, i).FileNode? && |NodeOf(s, i).content| == s.inodes[i].size <= s.blockSize
    ensures s.inodes[i].size > 0 ==>
              HoldsBlock(s, i) && NodeOf(s, i).content == s.blocks[s.inodes[i].block][..s.inodes[i].size]
  {
    if s.inodes[i].size > 0 { assert Owns(s, i) && HoldsBlock(s, i); }
  }

  lemma HandleFile(s: State, h: int)
    requires Inv(s) && OpenHandle(s, h)
    ensures ROOT < s.handles[h].inum && IsFile(s, s.handles[h].inum)
    ensures s.handles[h].offset <= s.inodes[s.handles[h].inum].size <= s.blockSize
  {
  }

  lemma CursorAbs(s: State, h: int)
    requires Inv(s)
    ensures CursorOk(Abs(s), s.blockSize, h)
    ensures OpenHandle(s, h) <==> h in CursorsOf(s)
  {
    if OpenHandle(s, h) {
      HandleFile(s, h);
      FileBytes(s, s.handles[h].inum);
    }
  }

  lemma LookupAbs(s: State, p: Path)
    requires Core(s)
    ensures NodeAt(Abs(s), p) == Lookup(s, p)
    ensures LinkAt(Abs(s), p) <==> IsLink(s, p)
    ensures IsLink(s, p) ==> NodesOf(s)[Lookup(s, p)] == LinkNode(Target(s, p))
    ensures Lookup(s, p) != -1 && !IsLink(s, p) ==> ROOT < Lookup(s, p) && IsFile(s, Lookup(s, p))
  {
    if ValidPath(p) { FindIffNamed(s.dir, p[1..]); }
    if Lookup(s, p) != -1 { LookupLive(s, p); }
    if IsLink(s, p) { assert Owns(s, Lookup(s, p)) && HoldsBlock(s, Lookup(s, p)); }
  }

  lemma GraphAbs(s: State)
    requires Core(s)
    ensures LinkGraphOf(Abs(s)) == Links(s)
  {
    var g, g' := LinkGraphOf(Abs(s)), Links(s);
    forall p ensures p in g <==> p in g' {
      LinkGraphDomain(Abs(s), p);
      LinksDomain(s, p);
      LookupAbs(s, p);
    }
    forall p | p in g ensures g[p] == g'[p] {
      LookupAbs(s, p);
      LinksDomain(s, p);
    }
  }

  /** Nodes are read off inodes and blocks alone. */
  lemma SameNodes(s: State, t: State)
    requires t.inodes == s.inodes && t.inodeTaken == s.inodeTaken && t.blocks == s.blocks
    ensures NodesOf(t) == NodesOf(s)
  {
    assert forall i :: Live(s, i) ==> NodeOf(t, i) == NodeOf(s, i);
  }

  lemma NodeKept(s: State, t: State, j: int, b: int)
    requires Live(s, j) && Live(t, j) && t.inodes[j] == s.inodes[j] && |t.blocks| == |s.blocks|
    requires forall c :: 0 <= c < |s.blocks| && c != b ==> t.blocks[c] == s.blocks[c]
    requires Owns(s, j) ==> s.inodes[j].block != b
    ensures NodeOf(t, j) == NodeOf(s, j)
  {
  }

  /** Changing one inode and one block that no other owner holds changes one node. */
  lemma OneNode(s: State, t: State, i: int, b: int)
    requires |s.inodes| == |s.inodeTaken| && ROOT < i < |s.inodes|
    requires |t.inodes| == |s.inodes| == |t.inodeTaken| && |t.blocks| == |s.blocks|
    requires t.inodeTaken == s.inodeTaken[i := t.inodeTaken[i]] && t.inodes == s.inodes[i := t.inodes[i]]
    requires forall c :: 0 <= c < |s.blocks| && c != b ==> t.blocks[c] == s.blocks[c]
    requires forall j :: Owns(s, j) && j != i ==> s.inodes[j].block != b
    ensures Live(t, i) ==> NodesOf(t) == NodesOf(s)[i := NodeOf(t, i)]
    ensures !Live(t, i) ==> NodesOf(t) == NodesOf(s) - {i}
  {
    forall j | ROOT < j < |s.inodes| && j != i && Live(s, j) ensures Live(t, j) && NodeOf(t, j) == NodeOf(s, j) {
      NodeKept(s, t, j, b);
    }
    if Live(t, i) {
      NodesAre(t, NodesOf(s)[i := NodeOf(t, i)]);
    } else {
      NodesAre(t, NodesOf(s) - {i});
    }
  }

  lemma NodesAre(t: State, m: map<int, Node>)
    requires forall j :: j in m <==> ROOT < j < |t.inodes| && Live(t, j)
    requires forall j :: j in m ==> m[j] == NodeOf(t, j)
    ensures NodesOf(t) == m
  {
  }

  /** Changing one inode and no block changes one node. */
  lemma OneInode(s: State, t: State, i: int)
    requires |s.inodes| == |s.inodeTaken| && ROOT < i < |s.inodes| && t.blocks == s.blocks
    requires |t.inodes| == |t.inodeTaken| == |s.inodes|
    requires t.inodeTaken == s.inodeTaken[i := t.inodeTaken[i]] && t.inodes == s.inodes[i := t.inodes[i]]
    ensures Live(t, i) ==> NodesOf(t) == NodesOf(s)[i := NodeOf(t, i)]
    ensures !Live(t, i) ==> NodesOf(t) == NodesOf(s) - {i}
  {
    forall j | ROOT < j < |s.inodes| && j != i && Live(s, j) ensures Live(t, j) && NodeOf(t, j) == NodeOf(s, j) {
    }
  }

  /** Changing only a count, or only a free inode, changes no node. */
  lemma NoNode(s: State, t: State, i: int)
    requires |s.inodes| == |s.inodeTaken| && ROOT < i < |s.inodes| && t.blocks == s.blocks
    requires t.inodeTaken == s.inodeTaken && |t.inodes| == |s.inodes| && t.inodes == s.inodes[i := t.inodes[i]]
    requires Live(s, i) ==> t.inodes[i] == s.inodes[i].(links := t.inodes[i].links)
    ensures NodesOf(t) == NodesOf(s)
  {
    forall j | ROOT < j < |s.inodes| && Live(s, j) ensures Live(t, j) && NodeOf(t, j) == NodeOf(s, j) {
    }
  }

  lemma SameCursors(s: State, t: State)
    requires t.handles == s.handles && t.handleTaken == s.handleTaken
    ensures CursorsOf(t) == CursorsOf(s)
  {
  }

  lemma OneCursor(s: State, t: State, h: int, c: Handle)
    requires |s.handles| == |s.handleTaken| && 0 <= h < |s.handles|
    requires t.handles == s.handles[h := c] && t.handleTaken == s.handleTaken[h := true]
    ensures CursorsOf(t) == CursorsOf(s)[h := Cursor(c.inum, c.offset)]
  {
  }

  // ---------------------------------------------------------------- open

  lemma RegisterRefines(s: State, i: nat, offset: nat)
    requires |s.handles| == |s.handleTaken|
    ensures var (s', r) := Register(s, i, offset);
            (Abs(s'), r) == AOpenHandle(Abs(s), AvailOf(s), i, offset)
  {
    var (s', r) := Register(s, i, offset);
    SameNodes(s, s');
    if r.Some? { OneCursor(s, s', r.value, Handle(i, offset)); }
  }

  lemma TruncatedRefines(s: State, i: nat, mode: Mode)
    requires Core(s) && ROOT < i && IsFile(s, i)
    ensures Abs(Truncated(s, i, mode)) ==
            if mode.trunc then Abs(s).(nodes := Abs(s).nodes[i := FileNode([])]) else Abs(s)
  {
    var t := Truncated(s, i, mode);
    FileBytes(s, i);
    if mode.trunc {
      OneInode(s, t, i);
      assert NodeOf(t, i) == FileNode([]);
    }
    SameCursors(s, t);
  }

  lemma OpenExistingRefines(s: State, p: Path, mode: Mode)
    requires Core(s) && !IsLink(s, p) && Lookup(s, p) != -1
    ensures NodeAt(Abs(s), p) in NodesOf(s) && NodesOf(s)[NodeAt(Abs(s), p)].FileNode?
    ensures var (s', r) := OpenName(s, p, mode);
            (Abs(s'), r) == AOpenName(Abs(s), AvailOf(s), p, mode)
  {
    var i := Lookup(s, p);
    LookupAbs(s, p);
    FileBytes(s, i);
    var s1 := Truncated(s, i, mode);
    TruncatedRefines(s, i, mode);
    RegisterRefines(s1, i, if mode.append then s1.inodes[i].size else 0);
  }

  lemma OpenNewRefines(s: State, p: Path, mode: Mode)
    requires Core(s) && NulFree(p) && ValidPath(p) && Lookup(s, p) == -1 && mode.creat && CreateInode(s, File).Some?
    ensures NodeAt(Abs(s), p) == -1
    ensures var (s', r) := OpenName(s, p, mode);
            (Abs(s'), r) == AOpenName(Abs(s), AvailOf(s), p, mode)
  {
    LookupAbs(s, p);
    var (s1, j) := CreateInode(s, File).value;
    assert Live(s, ROOT);
    var d := Add(s1.dir, p[1..], j);
    if d.None? {
      assert DeleteInode(s1, j).inodeTaken == s.inodeTaken;
      NoNode(s, DeleteInode(s1, j), j);
      SameCursors(s, DeleteInode(s1, j));
    } else {
      AddEffect(s.dir, p[1..], j);
      OpenNewAbs(s, s1.(dir := d.value), p, mode, j);
    }
  }

  lemma OpenNewAbs(s: State, t: State, p: Path, mode: Mode, j: nat)
    requires |s.inodes| == |s.inodeTaken| && ROOT < j == FirstFree(s.inodeTaken) < |s.inodes|
    requires NodeAt(Abs(s), p) == -1 && ValidPath(p) && mode.creat && Add(s.dir, p[1..], j).Some?
    requires |s.handles| == |s.handleTaken|
    requires t == s.(inodes := s.inodes[j := Inode(File, 1, 0, -1)], inodeTaken := s.inodeTaken[j := true],
        dir := t.dir)
    requires NameMap(t.dir) == NameMap(s.dir)[p[1..] := j]
    ensures var (u, r) := Register(t, j, 0);
            (Abs(u), r) == AOpenName(Abs(s), AvailOf(s), p, mode)
  {
    OneInode(s, t, j);
    SameCursors(s, t);
    assert NodeOf(t, j) == FileNode([]);
    RegisterRefines(t, j, 0);
  }

  lemma OpenNameRefines(s: State, p: Path, mode: Mode)
    requires Core(s) && NulFree(p) && !IsLink(s, p)
    ensures NodeAt(Abs(s), p) != -1 ==> NodeAt(Abs(s), p) in NodesOf(s) && NodesOf(s)[NodeAt(Abs(s), p)].FileNode?
    ensures var (s', r) := OpenName(s, p, mode);
            (Abs(s'), r) == AOpenName(Abs(s), AvailOf(s), p, mode)
  {
    LookupAbs(s, p);
    if Lookup(s, p) != -1 {
      OpenExistingRefines(s, p, mode);
    } else if ValidPath(p) && mode.creat && CreateInode(s, File).Some? {
      OpenNewRefines(s, p, mode);
    }
  }

  lemma OpenRefines(s: State, p: Path, mode: Mode)
    requires Core(s) && NulFree(p) && Resolves(Links(s), p, mode)
    ensures LinkGraphOf(Abs(s)) == Links(s)
    ensures forall n :: n in Abs(s).names ==> Abs(s).names[n] in Abs(s).nodes
    ensures var (s', r) := Open(s, p, mode);
            (Abs(s'), r) == AOpen(Abs(s), AvailOf(s), p, mode)
  {
    GraphAbs(s);
    forall n | n in Abs(s).names ensures Abs(s).names[n] in Abs(s).nodes {
      NameLive(s, n);
    }
    if !mode.creat {
      OpenFollowsChain(s, p, mode);
      OpenNameRefines(s, Final(Links(s), p), mode);
    } else {
      LookupAbs(s, p);
      if !IsLink(s, p) { OpenNameRefines(s, p, mode); }
    }
  }

  // ---------------------------------------------------------------- links

  lemma SymLinkStoredRefines(s: State, target: Path, link: Path)
    requires Core(s) && CanStoreLink(s, target, link)
    ensures var (t, ok) := SymLink(s, target, link); var i := FirstFree(s.inodeTaken);
            && CursorsOf(t) == CursorsOf(s)
            && (ok ==> NodesOf(t) == NodesOf(s)[i := LinkNode(target)])
            && (ok ==> NameMap(t.dir) == NameMap(s.dir)[link[1..] := i])
            && (!ok ==> NodesOf(t) == NodesOf(s) && t.dir == s.dir)
            && (ok <==> Add(s.dir, link[1..], i).Some?)
  {
    SymLinkStored(s, target, link);
    var (t, ok) := SymLink(s, target, link);
    var i, b := FirstFree(s.inodeTaken), FirstFree(s.blockTaken);
    OneNode(s, t, i, b) by { assert forall k :: Owns(s, k) ==> HoldsBlock(s, k); }
    SameCursors(s, t);
    if ok {
      AddEffect(s.dir, link[1..], i);
    } else {
      assert NodesOf(s) - {i} == NodesOf(s);
    }
  }

  lemma SymLinkNoBlock(s: State, target: Path, link: Path)
    requires Inv(s)
    requires CreateInode(s, Link).Some? && AllocBlock(CreateInode(s, Link).value.0).None?
    ensures !SymLink(s, target, link).1 && Abs(SymLink(s, target, link).0) == Abs(s)
  {
    var t := SymLink(s, target, link).0;
    if t != s {
      assert t.inodeTaken == s.inodeTaken;
      var i := FirstFree(s.inodeTaken);
      assert Live(s, ROOT);
      NoNode(s, t, i);
      SameCursors(s, t);
    }
  }

  /** The abstract effect of a link whose target was stored. */
  lemma SymLinkAbs(s: State, t: State, ok: bool, target: Path, link: Path, i: nat)
    requires NodeAt(Abs(s), target) != -1 && NodeAt(Abs(s), link) == -1 && IsPath(link)
    requires AvailOf(s).node == Some(i) && AvailOf(s).block
    requires CursorsOf(t) == CursorsOf(s)
    requires ok <==> IsName(link[1..]) && AvailOf(s).slot
    requires ok ==> NodesOf(t) == NodesOf(s)[i := LinkNode(target)] && NameMap(t.dir) == NameMap(s.dir)[link[1..] := i]
    requires !ok ==> NodesOf(t) == NodesOf(s) && t.dir == s.dir
    ensures (Abs(t), ok) == ASymLink(Abs(s), AvailOf(s), target, link)
  {
  }

  lemma SymLinkRefines(s: State, target: Path, link: Path)
    requires Inv(s) && NulFree(target) && NulFree(link)
    ensures var (s', ok) := SymLink(s, target, link);
            (Abs(s'), ok) == ASymLink(Abs(s), AvailOf(s), target, link)
  {
    LookupAbs(s, target);
    LookupAbs(s, link);
    if CanStoreLink(s, target, link) {
      var (t, ok) := SymLink(s, target, link);
      SymLinkStoredRefines(s, target, link);
      SymLinkAbs(s, t, ok, target, link, FirstFree(s.inodeTaken));
    } else {
      SymLinkFails(s, target, link);
    }
  }

  /** A link that stores nothing changes nothing a client can see. */
  lemma SymLinkFails(s: State, target: Path, link: Path)
    requires Inv(s) && !CanStoreLink(s, target, link) && NulFree(target) && NulFree(link)
    ensures !SymLink(s, target, link).1 && Abs(SymLink(s, target, link).0) == Abs(s)
  {
    if ValidPath(link) && Lookup(s, target) != -1 && Lookup(s, link) == -1 && CreateInode(s, Link).Some? {
      SymLinkNoBlock(s, target, link);
    }
  }

  lemma HardLinkRefines(s: State, target: Path, link: Path)
    requires Inv(s) && NulFree(link)
    ensures var (s', ok) := HardLink(s, target, link);
            (Abs(s'), ok) == AHardLink(Abs(s), AvailOf(s), target, link)
  {
    LookupAbs(s, target);
    LookupAbs(s, link);
    if ValidPath(link) && Lookup(s, target) != -1 && Lookup(s, link) == -1 && !IsLink(s, target) {
      HardLinkEffect(s, target, link);
    }
  }

  lemma HardLinkEffect(s: State, target: Path, link: Path)
    requires Core(s) && NulFree(link)
    requires ValidPath(link) && Lookup(s, target) != -1 && Lookup(s, link) == -1 && !IsLink(s, target)
    ensures var (t, ok) := HardLink(s, target, link); var i := Lookup(s, target);
            && NodesOf(t) == NodesOf(s) && CursorsOf(t) == CursorsOf(s)
            && (ok <==> Add(s.dir, link[1..], i).Some?)
            && (ok ==> NameMap(t.dir) == NameMap(s.dir)[link[1..] := i])
            && (!ok ==> t.dir == s.dir)
  {
    var (t, ok) := HardLink(s, target, link);
    var i := Lookup(s, target);
    LookupLive(s, target);
    if ok {
      AddEffect(s.dir, link[1..], i);
      NoNode(s, t, i);
      SameCursors(s, t);
    }
  }

  /** A count of one is the same as having no other name. */
  lemma LastName(s: State, p: Path)
    requires Core(s) && Lookup(s, p) != -1
    ensures Live(s, Lookup(s, p))
    ensures var i := Lookup(s, p); var names := NameMap(s.dir) - {p[1..]};
            s.inodes[i].links == 1 <==> !exists n :: n in names && names[n] == i
  {
    LookupLive(s, p);
    var i := Lookup(s, p);
    var d := s.dir;
    var k := FindSlot(d, p[1..]);
    var names := NameMap(d) - {p[1..]};
    assert ExactAt(d, s.inodeTaken, s.inodes, i);
    assert k in Refs(d, i);
    if s.inodes[i].links == 1 {
      Singleton(Refs(d, i), k);
      forall n | n in names ensures names[n] != i {
        FindIffNamed(d, n);
        assert FindSlot(d, n) !in Refs(d, i);
      }
    } else {
      assert |Refs(d, i) - {k}| > 0;
      var j :| j in Refs(d, i) - {k};
      FindUnique(d, j);
      FindIffNamed(d, CStr(d[j].name));
      assert CStr(d[j].name) in names;
    }
  }

  lemma Singleton<T>(s: set<T>, x: T)
    requires x in s && |s| == 1
    ensures s == {x}
  {
    assert |s - {x}| == 0;
  }

  lemma UnlinkNodes(s: State, p: Path)
    requires Inv(s) && Unlink(s, p).1
    ensures Live(s, Lookup(s, p))
    ensures var t := Unlink(s, p).0; var i := Lookup(s, p);
            && NodesOf(t) == (if s.inodes[i].links == 1 then NodesOf(s) - {i} else NodesOf(s))
            && NameMap(t.dir) == NameMap(s.dir) - {p[1..]}
            && CursorsOf(t) == CursorsOf(s)
  {
    var t := Unlink(s, p).0;
    var i := Lookup(s, p);
    LookupLive(s, p);
    ClearEffect(s.dir, p[1..]);
    if s.inodes[i].links == 1 { OneInode(s, t, i); } else { NoNode(s, t, i); }
    SameCursors(s, t);
  }

  lemma UnlinkRefines(s: State, p: Path)
    requires Inv(s)
    ensures var (s', ok) := Unlink(s, p);
            (Abs(s'), ok) == AUnlink(Abs(s), p)
  {
    LookupAbs(s, p);
    if Lookup(s, p) != -1 {
      UnlinkCases(s, p);
      LastName(s, p);
      if Unlink(s, p).1 { UnlinkNodes(s, p); }
      UnlinkAbs(s, p, Unlink(s, p).0, Unlink(s, p).1);
    }
  }

  lemma UnlinkCases(s: State, p: Path)
    requires Inv(s) && Lookup(s, p) != -1
    ensures Unlink(s, p).1 <==> !exists h :: h in CursorsOf(s) && CursorsOf(s)[h].node == Lookup(s, p)
    ensures !Unlink(s, p).1 ==> Unlink(s, p).0 == s
  {
    LookupLive(s, p);
    OpenAbs(s, p);
    ClearEffect(s.dir, p[1..]);
  }

  lemma UnlinkAbs(s: State, p: Path, t: State, ok: bool)
    requires ValidPath(p)
    requires var i := NodeAt(Abs(s), p); var names := NameMap(s.dir) - {p[1..]};
             && i != -1 && Live(s, i)
             && (ok <==> !exists h :: h in CursorsOf(s) && CursorsOf(s)[h].node == i)
             && (!ok ==> t == s)
             && (s.inodes[i].links == 1 <==> !exists n :: n in names && names[n] == i)
             && (ok ==>
                  && NodesOf(t) == (if s.inodes[i].links == 1 then NodesOf(s) - {i} else NodesOf(s))
                  && NameMap(t.dir) == names
                  && CursorsOf(t) == CursorsOf(s))
    ensures (Abs(t), ok) == AUnlink(Abs(s), p)
  {
  }

  /** A symbolic link is never open, so the check that skips links tests for any cursor. */
  lemma OpenAbs(s: State, p: Path)
    requires Inv(s) && Lookup(s, p) != -1
    ensures (Live(s, Lookup(s, p)) && s.inodes[Lookup(s, p)].kind != Link && IsOpen(s, Lookup(s, p))) <==>
            exists h :: h in CursorsOf(s) && CursorsOf(s)[h].node == Lookup(s, p)
  {
    var i := Lookup(s, p);
    LookupLive(s, p);
    if IsOpen(s, i) {
      var h :| 0 <= h < |s.handles| && s.handleTaken[h] && s.handles[h].inum == i;
      assert OpenHandle(s, h);
      assert h in CursorsOf(s);
    }
    if h :| h in CursorsOf(s) && CursorsOf(s)[h].node == i {
      assert OpenHandle(s, h);
    }
  }

  // ---------------------------------------------------------------- handles

  lemma CloseRefines(s: State, h: int)
    requires |s.handles| == |s.handleTaken|
    ensures var (s', ok) := Close(s, h);
            (Abs(s'), ok) == AClose(Abs(s), h)
  {
    var t := Close(s, h).0;
    SameNodes(s, t);
    assert CursorsOf(t) == CursorsOf(s) - {h};
  }

  /** A read returns the slice of the file from the cursor and moves only this cursor. */
  lemma ReadSlice(s: State, h: int, len: nat)
    requires Inv(s) && OpenHandle(s, h)
    ensures IsFile(s, s.handles[h].inum) && NodeOf(s, s.handles[h].inum).FileNode?
    ensures var Handle(i, off) := s.handles[h]; var c := NodeOf(s, i).content;
            && off <= |c|
            && var n := if |c| - off > len then len else |c| - off;
               Read(s, h, len) == (s.(handles := s.handles[h := Handle(i, off + n)]), Some(c[off..off + n]))
  {
    HandleFile(s, h);
    var Handle(i, off) := s.handles[h];
    FileBytes(s, i);
    var c := NodeOf(s, i).content;
    var n := if |c| - off > len then len else |c| - off;
    if n == 0 {
      assert s.handles[h := Handle(i, off + n)] == s.handles;
      assert c[off..off + n] == [];
    } else {
      assert c[off..off + n] == s.blocks[s.inodes[i].block][off..off + n];
    }
  }

  lemma ReadRefines(s: State, h: int, len: nat)
    requires Inv(s)
    ensures CursorOk(Abs(s), s.blockSize, h)
    ensures var (s', r) := Read(s, h, len);
            (Abs(s'), r) == ARead(Abs(s), s.blockSize, h, len)
  {
    CursorAbs(s, h);
    if OpenHandle(s, h) {
      HandleFile(s, h);
      ReadSlice(s, h, len);
      ReadAbs(s, h, len);
    }
  }

  lemma ReadAbs(s: State, h: int, len: nat)
    requires CursorOk(Abs(s), s.blockSize, h) && OpenHandle(s, h)
    requires ROOT < s.handles[h].inum && Live(s, s.handles[h].inum) && NodeOf(s, s.handles[h].inum).FileNode?
    requires s.handles[h].offset <= |NodeOf(s, s.handles[h].inum).content|
    ensures var Handle(i, off) := s.handles[h]; var c := NodeOf(s, i).content;
            var n := if |c| - off > len then len else |c| - off;
            (Abs(s.(handles := s.handles[h := Handle(i, off + n)])), Some(c[off..off + n]))
            == ARead(Abs(s), s.blockSize, h, len)
  {
    var Handle(i, off) := s.handles[h];
    var c := NodeOf(s, i).content;
    var n := if |c| - off > len then len else |c| - off;
    var t := s.(handles := s.handles[h := Handle(i, off + n)]);
    SameNodes(s, t);
    assert s.handleTaken == s.handleTaken[h := true];
    OneCursor(s, t, h, Handle(i, off + n));
  }

  lemma WriteRefines(s: State, h: int, data: seq<byte>)
    requires Inv(s)
    ensures CursorOk(Abs(s), s.blockSize, h)
    ensures var (s', r) := Write(s, h, data);
            (Abs(s'), r) == AWrite(Abs(s), AvailOf(s), s.blockSize, h, data)
  {
    CursorAbs(s, h);
    if OpenHandle(s, h) {
      if Write(s, h, data).1.Some? && Write(s, h, data).1.value > 0 {
        WriteMoves(s, h, data);
      } else {
        WriteIdle(s, h, data);
      }
    }
  }

  lemma WriteMoves(s: State, h: int, data: seq<byte>)
    requires Inv(s) && OpenHandle(s, h) && CursorOk(Abs(s), s.blockSize, h)
    requires Write(s, h, data).1.Some? && Write(s, h, data).1.value > 0
    ensures AWrite(Abs(s), AvailOf(s), s.blockSize, h, data) == (Abs(Write(s, h, data).0), Write(s, h, data).1)
  {
    WriteNodes(s, h, data);
    WriteAbs(s, Write(s, h, data).0, h, data, Write(s, h, data).1.value);
  }

  /** The file of the handle changes by an overwrite of `n` bytes at the cursor; no other node or cursor changes. */
  ghost predicate Overwrites(s: State, t: State, h: int, data: seq<byte>, n: nat) {
    && OpenHandle(s, h)
    && var Handle(i, off) := s.handles[h];
       && ROOT < i && Live(s, i) && NodeOf(s, i).FileNode? && off <= |NodeOf(s, i).content| <= s.blockSize
       && 0 < n == Clip(s.blockSize, off, |data|)
       && (NodeOf(s, i).content == [] ==> AvailOf(s).block)
       && NodesOf(t) == NodesOf(s)[i := FileNode(Overwrite(NodeOf(s, i).content, off, data[..n]))]
       && CursorsOf(t) == CursorsOf(s)[h := Cursor(i, off + n)]
       && t.dir == s.dir
  }

  /** A write that moves no byte: nothing to write, no room after the cursor, or no block for an empty file. */
  lemma WriteIdle(s: State, h: int, data: seq<byte>)
    requires Inv(s) && OpenHandle(s, h) && CursorOk(Abs(s), s.blockSize, h)
    requires !(Write(s, h, data).1.Some? && Write(s, h, data).1.value > 0)
    ensures Write(s, h, data).0 == s
    ensures AWrite(Abs(s), AvailOf(s), s.blockSize, h, data) == (Abs(s), Write(s, h, data).1)
  {
    HandleFile(s, h);
    FileBytes(s, s.handles[h].inum);
  }

  lemma WriteAbs(s: State, t: State, h: int, data: seq<byte>, n: nat)
    requires CursorOk(Abs(s), s.blockSize, h) && Overwrites(s, t, h, data, n)
    ensures AWrite(Abs(s), AvailOf(s), s.blockSize, h, data) == (Abs(t), Some(n))
  {
  }

  lemma WriteNodes(s: State, h: int, data: seq<byte>)
    requires Inv(s) && OpenHandle(s, h)
    requires Write(s, h, data).1.Some? && Write(s, h, data).1.value > 0
    ensures Overwrites(s, Write(s, h, data).0, h, data, Write(s, h, data).1.value)
  {
    var (t, r) := Write(s, h, data);
    var Handle(i, off) := s.handles[h];
    HandleFile(s, h);
    FileBytes(s, i);
    WriteEffect(s, h, data);
    WriteContent(s, h, data);
    OneNode(s, t, i, WriteBlock(s, h));
    assert s.handleTaken == s.handleTaken[h := true];
    OneCursor(s, t, h, Handle(i, off + r.value));
  }

  lemma WriteContent(s: State, h: int, data: seq<byte>)
    requires Inv(s) && OpenHandle(s, h)
    requires Write(s, h, data).1.Some? && Write(s, h, data).1.value > 0
    ensures var (t, r) := Write(s, h, data); var i := s.handles[h].inum;
            && Live(s, i) && Live(t, i) && NodeOf(s, i).FileNode?
            && s.handles[h].offset <= |NodeOf(s, i).content|
            && NodeOf(t, i) == FileNode(Overwrite(NodeOf(s, i).content, s.handles[h].offset, data[..r.value]))
  {
    WriteEffect(s, h, data);
    var (t, r) := Write(s, h, data);
    var i, off, b := s.handles[h].inum, s.handles[h].offset, WriteBlock(s, h);
    HandleFile(s, h);
    FileBytes(s, i);
    SpliceOverwrites(s.blocks[b], s.inodes[i].size, off, data[..r.value]);
    assert s.blocks[b][..s.inodes[i].size] == NodeOf(s, i).content;
  }
}
