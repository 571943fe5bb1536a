/** Every API call of TecnicoFS keeps the global invariant. */
module TfsInvariant {
  import opened Bytes
  import opened Directory
  import opened LinkGraph
  import opened Tfs

  // ------------------------------------------------------- link counts

  /** A fresh inode gets its first name. */
  lemma ExactCreate(d: seq<Slot>, taken: seq<bool>, inodes: seq<Inode>, n: Name, i: nat, node: Inode)
    requires LinksExact(d, taken, inodes) && ROOT < i < |taken| && !taken[i] && node.links == 1
    requires NulFree(n) && Find(d, n) == -1 && Add(d, n, i).Some?
    ensures LinksExact(Add(d, n, i).value, taken[i := true], inodes[i := node])
  {
    AddEffect(d, n, i);
    var d', taken', inodes' := Add(d, n, i).value, taken[i := true], inodes[i := node];
    forall j | ROOT < j < |taken| ensures ExactAt(d', taken', inodes', j) {
      assert ExactAt(d, taken, inodes, j);
    }
  }

  /** A free inode may be overwritten while it stays free. */
  lemma ExactScratch(d: seq<Slot>, taken: seq<bool>, inodes: seq<Inode>, i: nat, node: Inode)
    requires LinksExact(d, taken, inodes) && ROOT < i < |taken| && !taken[i]
    ensures LinksExact(d, taken, inodes[i := node])
  {
    var inodes' := inodes[i := node];
    forall j | ROOT < j < |taken| ensures ExactAt(d, taken, inodes', j) {
      assert ExactAt(d, taken, inodes, j);
    }
  }

  /** A live inode gets one more name and one more count. */
  lemma ExactLink(d: seq<Slot>, taken: seq<bool>, inodes: seq<Inode>, n: Name, i: nat, node: Inode)
    requires LinksExact(d, taken, inodes) && ROOT < i < |taken| && taken[i] && node.links == inodes[i].links + 1
    requires NulFree(n) && Find(d, n) == -1 && Add(d, n, i).Some?
    ensures LinksExact(Add(d, n, i).value, taken, inodes[i := node])
  {
    AddEffect(d, n, i);
    var d', inodes' := Add(d, n, i).value, inodes[i := node];
    forall j | ROOT < j < |taken| ensures ExactAt(d', taken, inodes', j) {
      assert ExactAt(d, taken, inodes, j);
    }
  }

  /** Dropping one of several names, or the only one together with the inode. */
  lemma ExactUnlink(d: seq<Slot>, taken: seq<bool>, inodes: seq<Inode>, n: Name, i: nat, node: Inode)
    requires LinksExact(d, taken, inodes) && ROOT < i < |taken| && n != [] && Find(d, n) == i
    ensures Clear(d, n).Some? && taken[i] && inodes[i].links >= 1
    ensures inodes[i].links == 1 ==> LinksExact(Clear(d, n).value, taken[i := false], inodes)
    ensures inodes[i].links > 1 && node.links == inodes[i].links - 1 ==>
              LinksExact(Clear(d, n).value, taken, inodes[i := node])
  {
    ClearEffect(d, n);
    var k := FindSlot(d, n);
    assert k in Refs(d, i);
    assert ExactAt(d, taken, inodes, i);
    var d', taken', inodes' := Clear(d, n).value, taken[i := false], inodes[i := node];
    forall j | ROOT < j < |taken|
      ensures inodes[i].links == 1 ==> ExactAt(d', taken', inodes, j)
      ensures inodes[i].links > 1 && node.links == inodes[i].links - 1 ==> ExactAt(d', taken, inodes', j)
    {
      assert ExactAt(d, taken, inodes, j);
    }
  }

  /** Changing a live inode without touching its count. */
  lemma ExactSame(d: seq<Slot>, taken: seq<bool>, inodes: seq<Inode>, i: nat, node: Inode)
    requires LinksExact(d, taken, inodes) && i < |taken| && node.links == inodes[i].links
    ensures LinksExact(d, taken, inodes[i := node])
  {
    var inodes' := inodes[i := node];
    forall j | ROOT < j < |taken| ensures ExactAt(d, taken, inodes', j) {
      assert ExactAt(d, taken, inodes, j);
    }
  }

  // ------------------------------------------------------- open

  /** Only handles with a zero offset sit on the inode that this open truncates. */
  ghost predicate TruncSafe(s: State, p: Path, mode: Mode)
    requires Core(s)
  {
    var i := Lookup(s, p);
    mode.trunc && i != -1 ==> forall h :: OpenHandle(s, h) && s.handles[h].inum == i ==> s.handles[h].offset == 0
  }

  lemma TruncatedKeeps(s: State, i: nat, mode: Mode)
    requires Core(s) && ROOT < i && IsFile(s, i)
    ensures Core(Truncated(s, i, mode))
    ensures IsFile(Truncated(s, i, mode), i)
  {
    var s1 := Truncated(s, i, mode);
    if s1 != s {
      assert Owns(s, i) && HoldsBlock(s, i);
      ExactSame(s.dir, s.inodeTaken, s.inodes, i, s1.inodes[i]);
      forall j | Owns(s1, j) ensures HoldsBlock(s1, j) && Owns(s, j) && s1.inodes[j] == s.inodes[j] {
        assert Owns(s, j) && HoldsBlock(s, j);
      }
      forall j | Owns(s1, j) && s1.inodes[j].kind == Link ensures StoredTarget(s1, j) {
        assert StoredTarget(s, j);
      }
    }
  }

  /** Ownership is read off inodes and blocks alone. */
  lemma SameBlocks(s: State, t: State)
    requires BlockInv(s) && TargetInv(s)
    requires t.inodes == s.inodes && t.inodeTaken == s.inodeTaken && t.blockSize == s.blockSize
    requires t.blocks == s.blocks && t.blockTaken == s.blockTaken
    ensures BlockInv(t) && TargetInv(t)
  {
    assert forall j :: Owns(t, j) <==> Owns(s, j);
    forall j | Owns(t, j) ensures HoldsBlock(t, j) {
      assert HoldsBlock(s, j);
    }
    forall j | Owns(t, j) && t.inodes[j].kind == Link ensures StoredTarget(t, j) {
      assert StoredTarget(s, j);
    }
  }

  lemma RegisterKeeps(s: State, i: nat, offset: nat)
    requires Core(s) && ROOT < i && IsFile(s, i)
    ensures Core(Register(s, i, offset).0)
    ensures CursorInv(s) && offset <= s.inodes[i].size ==> CursorInv(Register(s, i, offset).0)
  {
    var s1 := Register(s, i, offset).0;
    var h := FirstFree(s.handleTaken);
    forall g | OpenHandle(s1, g) ensures s1.handles[g].inum != ROOT && IsFile(s1, s1.handles[g].inum) {
      if g != h { assert OpenHandle(s, g); }
    }
    SameBlocks(s, s1);
  }

  /** Initialising a free inode and giving it its first name. */
  lemma CreatedKeeps(s: State, n: Name)
    requires Core(s) && NulFree(n) && Find(s.dir, n) == -1
    requires CreateInode(s, File).Some?
    ensures var (s1, i) := CreateInode(s, File).value;
            && ROOT < i < |s.inodes| && !s.inodeTaken[i]
            && Core(DeleteInode(s1, i))
            && match Add(s1.dir, n, i) case None => true case Some(d) => Core(s1.(dir := d)) && IsFile(s1, i)
  {
    var (s1, i) := CreateInode(s, File).value;
    assert Live(s, ROOT);
    ExactScratch(s.dir, s.inodeTaken, s.inodes, i, s1.inodes[i]);
    var s2 := DeleteInode(s1, i);
    assert s2.inodeTaken == s.inodeTaken && s2.blockTaken == s.blockTaken;
    SameOwners(s, s2);
    if Add(s1.dir, n, i).Some? {
      ExactCreate(s.dir, s.inodeTaken, s.inodes, n, i, s1.inodes[i]);
      SameOwners(s, s1.(dir := Add(s1.dir, n, i).value));
    }
  }

  /** Core holds again when owners, their blocks and the live files are what they were. */
  lemma SameOwners(s: State, t: State)
    requires Core(s) && Shape(t) && RootInv(t) && LinksExact(t.dir, t.inodeTaken, t.inodes)
    requires t.blockSize == s.blockSize && t.handles == s.handles && t.handleTaken == s.handleTaken
    requires t.blocks == s.blocks && t.blockTaken == s.blockTaken
    requires forall j :: Live(s, j) ==> Live(t, j) && t.inodes[j] == s.inodes[j]
    requires forall j :: Live(t, j) && !Live(s, j) ==>
               t.inodes[j].kind == File && t.inodes[j].size == 0
    ensures Core(t)
  {
    assert forall j :: Owns(t, j) <==> Owns(s, j);
    forall j | Owns(t, j) ensures HoldsBlock(t, j) {
      assert HoldsBlock(s, j);
    }
    forall j | Owns(t, j) && t.inodes[j].kind == Link ensures StoredTarget(t, j) {
      assert StoredTarget(s, j);
    }
    forall h | OpenHandle(t, h) ensures t.handles[h].inum != ROOT && IsFile(t, t.handles[h].inum) {
      assert OpenHandle(s, h);
    }
  }

  /** Truncation leaves a cursor past the end exactly when a handle on the file has a non-zero offset. */
  lemma TruncatedCursors(s: State, i: nat, mode: Mode)
    requires HandleInv(s) && CursorInv(s) && i < |s.inodes| && HandleInv(Truncated(s, i, mode))
    ensures CursorInv(Truncated(s, i, mode)) <==>
            (mode.trunc ==> forall h :: OpenHandle(s, h) && s.handles[h].inum == i ==> s.handles[h].offset == 0)
  {
    var t := Truncated(s, i, mode);
    assert forall h :: OpenHandle(t, h) <==> OpenHandle(s, h);
    if !CursorInv(t) {
      var h :| OpenHandle(t, h) && t.handles[h].offset > t.inodes[t.handles[h].inum].size;
      assert OpenHandle(s, h) && s.handles[h].inum == i;
    }
  }

  lemma RegisterCursors(s: State, i: nat, offset: nat)
    requires HandleInv(s) && |s.handles| == |s.handleTaken| && ROOT < i && IsFile(s, i) && offset <= s.inodes[i].size
    requires HandleInv(Register(s, i, offset).0)
    ensures CursorInv(Register(s, i, offset).0) <==> CursorInv(s)
  {
    var t := Register(s, i, offset).0;
    var k := FirstFree(s.handleTaken);
    forall h | OpenHandle(s, h) ensures OpenHandle(t, h) && h != k && t.handles[h] == s.handles[h] {
    }
  }

  lemma OpenExistingKeeps(s: State, p: Path, mode: Mode)
    requires Core(s) && !IsLink(s, p) && Lookup(s, p) != -1
    ensures Core(OpenName(s, p, mode).0)
    ensures CursorInv(s) ==> (CursorInv(OpenName(s, p, mode).0) <==> TruncSafe(s, p, mode))
  {
    var i := Lookup(s, p);
    LookupLive(s, p);
    TruncatedKeeps(s, i, mode);
    var s1 := Truncated(s, i, mode);
    var off := if mode.append then s1.inodes[i].size else 0;
    RegisterKeeps(s1, i, off);
    if CursorInv(s) {
      TruncatedCursors(s, i, mode);
      RegisterCursors(s1, i, off);
    }
  }

  lemma OpenNewKeeps(s: State, p: Path, mode: Mode)
    requires Core(s) && NulFree(p) && ValidPath(p) && Lookup(s, p) == -1 && mode.creat && CreateInode(s, File).Some?
    ensures Core(OpenName(s, p, mode).0)
    ensures CursorInv(s) ==> CursorInv(OpenName(s, p, mode).0)
  {
    CreatedKeeps(s, p[1..]);
    var (s1, j) := CreateInode(s, File).value;
    var a := Add(s1.dir, p[1..], j);
    var s2 := if a.Some? then s1.(dir := a.value) else DeleteInode(s1, j);
    if CursorInv(s) {
      forall h | OpenHandle(s2, h) ensures s2.handles[h].offset <= s2.inodes[s2.handles[h].inum].size {
        assert OpenHandle(s, h);
      }
    }
    if a.Some? { RegisterKeeps(s2, j, 0); }
  }

  lemma OpenNameKeeps(s: State, p: Path, mode: Mode)
    requires Core(s) && NulFree(p) && !IsLink(s, p)
    ensures Core(OpenName(s, p, mode).0)
    ensures CursorInv(s) ==> (CursorInv(OpenName(s, p, mode).0) <==> TruncSafe(s, p, mode))
  {
    if Lookup(s, p) != -1 {
      LookupLive(s, p);
      OpenExistingKeeps(s, p, mode);
    } else if ValidPath(p) && mode.creat && CreateInode(s, File).Some? {
      OpenNewKeeps(s, p, mode);
    }
  }

  /** Following a chain without creation is opening its last path. */
  lemma {:induction false} OpenFollowsChain(s: State, p: Path, mode: Mode)
    requires Core(s) && Terminates(Links(s), p) && !mode.creat
    ensures !IsLink(s, Final(Links(s), p))
    ensures Open(s, p, mode) == OpenName(s, Final(Links(s), p), mode)
    ensures NulFree(p) ==> NulFree(Final(Links(s), p))
    decreases Hops(Links(s), p)
  {
    LinksDomain(s, p);
    if IsLink(s, p) {
      HopsStep(Links(s), p);
      OpenFollowsChain(s, Target(s, p), mode);
    }
  }

  /** The path whose file an open acts on. */
  ghost function Opened(s: State, p: Path, mode: Mode): Path
    requires Core(s) && Resolves(Links(s), p, mode)
  {
    if mode.creat then p else Final(Links(s), p)
  }

  /** The open does not truncate a file under another handle's non-zero cursor. */
  ghost predicate OpenSafe(s: State, p: Path, mode: Mode)
    requires Core(s) && Resolves(Links(s), p, mode)
  {
    !(mode.creat && IsLink(s, p)) ==> TruncSafe(s, Opened(s, p, mode), mode)
  }

  /**
   Every open keeps the core invariant; it keeps all cursors inside their files if and only if no other
   handle with a non-zero offset sits on a file it truncates.
   */
  lemma OpenKeeps(s: State, p: Path, mode: Mode)
    requires Inv(s) && NulFree(p) && Resolves(Links(s), p, mode)
    ensures Core(Open(s, p, mode).0)
    ensures mode.creat && IsLink(s, p) ==> Open(s, p, mode) == (s, None)
    ensures CursorInv(Open(s, p, mode).0) <==> OpenSafe(s, p, mode)
  {
    if !mode.creat {
      OpenFollowsChain(s, p, mode);
      OpenNameKeeps(s, Final(Links(s), p), mode);
    } else if !IsLink(s, p) {
      OpenNameKeeps(s, p, mode);
    }
  }

  // ------------------------------------------------------- links

  lemma HardLinkKeeps(s: State, target: Path, link: Path)
    requires Inv(s) && NulFree(link)
    ensures Inv(HardLink(s, target, link).0)
  {
    var (s', ok) := HardLink(s, target, link);
    if ok {
      var i := Lookup(s, target);
      LookupLive(s, target);
      ExactLink(s.dir, s.inodeTaken, s.inodes, link[1..], i, s'.inodes[i]);
      SameButCount(s, s');
    }
  }

  /** Changing directory and counts of live files leaves everything else as it was. */
  lemma SameButCount(s: State, t: State)
    requires Inv(s) && LinksExact(t.dir, t.inodeTaken, t.inodes) && |t.dir| == |s.dir|
    requires |t.inodes| == |s.inodes|
    requires t == s.(dir := t.dir, inodes := t.inodes)
    requires forall j :: 0 <= j < |s.inodes| ==>
               t.inodes[j] == s.inodes[j] || (t.inodes[j] == s.inodes[j].(links := t.inodes[j].links) && IsFile(s, j))
    ensures Inv(t)
  {
    assert forall j :: Owns(t, j) <==> Owns(s, j);
    forall j | Owns(t, j) ensures HoldsBlock(t, j) {
      assert HoldsBlock(s, j);
    }
    forall j | Owns(t, j) && t.inodes[j].kind == Link ensures StoredTarget(t, j) {
      assert StoredTarget(s, j);
    }
    forall h | OpenHandle(t, h)
      ensures t.handles[h].inum != ROOT && IsFile(t, t.handles[h].inum)
      ensures t.handles[h].offset <= t.inodes[t.handles[h].inum].size
    {
      assert OpenHandle(s, h);
    }
  }

  lemma UnlinkKeeps(s: State, p: Path)
    requires Inv(s)
    ensures Inv(Unlink(s, p).0)
  {
    var (s', ok) := Unlink(s, p);
    if ok {
      var i := Lookup(s, p);
      LookupLive(s, p);
      if s.inodes[i].links == 1 {
        ExactUnlink(s.dir, s.inodeTaken, s.inodes, p[1..], i, s.inodes[i]);
        DeletedKeeps(s, i, Clear(s.dir, p[1..]).value);
      } else {
        ExactUnlink(s.dir, s.inodeTaken, s.inodes, p[1..], i, s'.inodes[i]);
        SameButCount(s, s');
      }
    }
  }

  /** Deleting an inode that no handle is on and that has just lost its last name. */
  lemma DeletedKeeps(s: State, i: nat, d: seq<Slot>)
    requires Inv(s) && ROOT < i && Live(s, i) && (s.inodes[i].kind == File ==> !IsOpen(s, i))
    requires LinksExact(d, s.inodeTaken[i := false], s.inodes) && |d| == |s.dir|
    ensures Inv(DeleteInode(s.(dir := d), i))
  {
    var t := DeleteInode(s.(dir := d), i);
    if s.inodes[i].size > 0 { assert Owns(s, i) && HoldsBlock(s, i); }
    assert forall j :: Owns(t, j) <==> Owns(s, j) && j != i;
    forall j | Owns(t, j) ensures HoldsBlock(t, j) {
      assert HoldsBlock(s, j);
    }
    forall j | Owns(t, j) && t.inodes[j].kind == Link ensures StoredTarget(t, j) {
      assert StoredTarget(s, j);
    }
    forall h | OpenHandle(t, h)
      ensures t.handles[h].inum != ROOT && IsFile(t, t.handles[h].inum)
      ensures t.handles[h].offset <= t.inodes[t.handles[h].inum].size
    {
      assert OpenHandle(s, h);
    }
  }

  lemma SymLinkKeeps(s: State, target: Path, link: Path)
    requires Inv(s) && NulFree(target) && NulFree(link)
    ensures Inv(SymLink(s, target, link).0)
  {
    if ValidPath(link) && Lookup(s, target) != -1 && Lookup(s, link) == -1 && CreateInode(s, Link).Some? {
      LookupLive(s, target);
      var (s1, i) := CreateInode(s, Link).value;
      assert Live(s, ROOT);
      ExactScratch(s.dir, s.inodeTaken, s.inodes, i, s1.inodes[i]);
      if AllocBlock(s1).None? {
        var t := DeleteInode(s1, i);
        assert t.inodeTaken == s.inodeTaken;
        SameOwnersCursors(s, t);
      } else {
        SymLinkStoredKeeps(s, target, link);
      }
    }
  }

  lemma SameOwnersCursors(s: State, t: State)
    requires Inv(s) && Shape(t) && RootInv(t) && LinksExact(t.dir, t.inodeTaken, t.inodes)
    requires t.blockSize == s.blockSize && t.handles == s.handles && t.handleTaken == s.handleTaken
    requires t.blocks == s.blocks && t.blockTaken == s.blockTaken
    requires forall j :: Live(s, j) ==> Live(t, j) && t.inodes[j] == s.inodes[j]
    requires forall j :: Live(t, j) ==> Live(s, j)
    ensures Inv(t)
  {
    SameOwners(s, t);
    forall h | OpenHandle(t, h) ensures t.handles[h].offset <= t.inodes[t.handles[h].inum].size {
      assert OpenHandle(s, h);
    }
  }

  ghost predicate CanStoreLink(s: State, target: Path, link: Path) {
    && NulFree(target) && NulFree(link) && ValidPath(link) && Lookup(s, target) != -1 && Lookup(s, link) == -1
    && FirstFree(s.inodeTaken) < |s.inodeTaken| && FirstFree(s.blockTaken) < |s.blockTaken|
  }

  /** The link's block is taken and written; its entry is then added, or the inode given back without the block. */
  lemma SymLinkStored(s: State, target: Path, link: Path)
    requires Core(s) && CanStoreLink(s, target, link)
    ensures var i := FirstFree(s.inodeTaken); var b := FirstFree(s.blockTaken); var (t, ok) := SymLink(s, target, link);
            && ROOT < i && |target| < s.blockSize && ValidPath(target)
            && t.blockSize == s.blockSize
            && t.blocks == s.blocks[b := Splice(s.blocks[b], 0, target + [0])]
            && t.blockTaken == s.blockTaken[b := true]
            && t.inodes == s.inodes[i := Inode(Link, 1, 0, b)]
            && t.handles == s.handles && t.handleTaken == s.handleTaken
            && CStr(t.blocks[b]) == target
            && (ok <==> Add(s.dir, link[1..], i).Some?)
            && (ok ==> t.dir == Add(s.dir, link[1..], i).value && t.inodeTaken == s.inodeTaken[i := true])
            && (!ok ==> t.dir == s.dir && t.inodeTaken == s.inodeTaken)
  {
    LookupLive(s, target);
    var i, b := FirstFree(s.inodeTaken), FirstFree(s.blockTaken);
    assert Live(s, ROOT);
    var (t, ok) := SymLink(s, target, link);
    assert Splice(s.blocks[b], 0, target + [0]) == target + [0] + s.blocks[b][|target| + 1..];
    CStrOfTerminated(target, s.blocks[b][|target| + 1..]);
    assert t.inodes == s.inodes[i := Inode(Link, 1, 0, b)];
    if !ok { assert t.inodeTaken == s.inodeTaken; }
  }

  lemma SymLinkStoredKeeps(s: State, target: Path, link: Path)
    requires Inv(s) && CanStoreLink(s, target, link)
    ensures Inv(SymLink(s, target, link).0)
  {
    SymLinkStored(s, target, link);
    var i, b := FirstFree(s.inodeTaken), FirstFree(s.blockTaken);
    var (t, ok) := SymLink(s, target, link);
    if ok {
      ExactCreate(s.dir, s.inodeTaken, s.inodes, link[1..], i, t.inodes[i]);
    } else {
      ExactScratch(s.dir, s.inodeTaken, s.inodes, i, t.inodes[i]);
    }
    SymLinkBlocks(s, t, i, b);
    forall h | OpenHandle(t, h)
      ensures t.handles[h].inum != ROOT && IsFile(t, t.handles[h].inum)
      ensures t.handles[h].offset <= t.inodes[t.handles[h].inum].size
    {
      assert OpenHandle(s, h);
    }
  }

  /** A new owner on a block that was FREE. */
  lemma SymLinkBlocks(s: State, t: State, i: nat, b: nat)
    requires |s.inodes| == |s.inodeTaken| && i < |s.inodes| && |s.blocks| == |s.blockTaken| && b < |s.blocks|
    requires BlockInv(s) && TargetInv(s) && !s.blockTaken[b] && !s.inodeTaken[i]
    requires t.inodes == s.inodes[i := Inode(Link, 1, 0, b)] && t.blockSize == s.blockSize
    requires t.inodeTaken == s.inodeTaken || t.inodeTaken == s.inodeTaken[i := true]
    requires |t.blocks| == |s.blocks| && t.blockTaken == s.blockTaken[b := true]
    requires forall c :: 0 <= c < |s.blocks| && c != b ==> t.blocks[c] == s.blocks[c]
    requires ValidPath(CStr(t.blocks[b])) && |CStr(t.blocks[b])| < t.blockSize
    ensures BlockInv(t) && TargetInv(t)
  {
    forall j | Owns(t, j) ensures HoldsBlock(t, j) && (j != i ==> Owns(s, j) && t.inodes[j].block != b) {
      if j != i { assert Owns(s, j) && HoldsBlock(s, j); }
    }
    forall j | Owns(t, j) && t.inodes[j].kind == Link ensures StoredTarget(t, j) {
      if j != i { assert StoredTarget(s, j); }
    }
  }

  // ------------------------------------------------------- handles

  lemma CloseKeeps(s: State, h: int)
    requires Inv(s)
    ensures Inv(Close(s, h).0)
  {
    var t := Close(s, h).0;
    SameBlocks(s, t);
    forall g | OpenHandle(t, g)
      ensures t.handles[g].inum != ROOT && IsFile(t, t.handles[g].inum)
      ensures t.handles[g].offset <= t.inodes[t.handles[g].inum].size
    {
      assert OpenHandle(s, g);
    }
  }

  lemma ReadKeeps(s: State, h: int, len: nat)
    requires Inv(s)
    ensures Inv(Read(s, h, len).0)
  {
    var t := Read(s, h, len).0;
    forall g | OpenHandle(t, g)
      ensures t.handles[g].inum != ROOT && IsFile(t, t.handles[g].inum)
      ensures t.handles[g].offset <= t.inodes[t.handles[g].inum].size
    {
      assert OpenHandle(s, g);
    }
    SameBlocks(s, t);
  }

  /** The block a write goes to: the file's own, or the one it has just been given. */
  ghost function WriteBlock(s: State, h: int): int
    requires Inv(s) && OpenHandle(s, h)
  {
    var i := s.handles[h].inum;
    if s.inodes[i].size == 0 then FirstFree(s.blockTaken) else s.inodes[i].block
  }

  /** What a write that moves bytes does to the state. */
  lemma WriteEffect(s: State, h: int, data: seq<byte>)
    requires Inv(s) && OpenHandle(s, h)
    requires Write(s, h, data).1.Some? && Write(s, h, data).1.value > 0
    ensures var (t, r) := Write(s, h, data); var i := s.handles[h].inum; var b := WriteBlock(s, h); var n := r.value;
            && 0 <= b < |s.blocks| && n == Clip(s.blockSize, s.handles[h].offset, |data|)
            && t.blocks == s.blocks[b := Splice(s.blocks[b], s.handles[h].offset, data[..n])]
            && t.inodes == s.inodes[i := s.inodes[i].(block := b, size := Max(s.inodes[i].size,
                s.handles[h].offset + n))]
            && t.handles == s.handles[h := s.handles[h].(offset := s.handles[h].offset + n)]
            && t.blockTaken == s.blockTaken[b := true]
            && t.dir == s.dir && t.inodeTaken == s.inodeTaken && t.handleTaken == s.handleTaken
            && t.blockSize == s.blockSize
            && (forall j :: Owns(s, j) && j != i ==> s.inodes[j].block != b)
  {
    var i := s.handles[h].inum;
    forall j | Owns(s, j) && j != i ensures s.inodes[j].block != WriteBlock(s, h) {
      assert HoldsBlock(s, j);
      if s.inodes[i].size > 0 { assert Owns(s, i); }
    }
    if s.inodes[i].size > 0 {
      assert Owns(s, i) && HoldsBlock(s, i);
      assert s.blockTaken == s.blockTaken[s.inodes[i].block := true];
    }
  }

  lemma WriteKeeps(s: State, h: int, data: seq<byte>)
    requires Inv(s)
    ensures Inv(Write(s, h, data).0)
  {
    var (t, r) := Write(s, h, data);
    if OpenHandle(s, h) && r.Some? && r.value > 0 {
      WriteEffect(s, h, data);
      var i, b := s.handles[h].inum, WriteBlock(s, h);
      ExactSame(s.dir, s.inodeTaken, s.inodes, i, t.inodes[i]);
      assert forall j :: Owns(t, j) <==> Owns(s, j) || j == i;
      forall j | Owns(t, j) ensures HoldsBlock(t, j) && (j != i ==> t.inodes[j].block != b) {
        if j != i { assert Owns(s, j) && HoldsBlock(s, j); }
      }
      forall j | Owns(t, j) && t.inodes[j].kind == Link ensures StoredTarget(t, j) {
        assert Owns(s, j) && StoredTarget(s, j);
      }
      forall g | OpenHandle(t, g)
        ensures t.handles[g].inum != ROOT && IsFile(t, t.handles[g].inum)
        ensures t.handles[g].offset <= t.inodes[t.handles[g].inum].size
      {
        assert OpenHandle(s, g);
      }
    }
  }

  // ------------------------------------------------------- initialisation

  /** A freshly initialised file system satisfies the invariant; it fails only without an inode or a block. */
  lemma InitInv(blockSize: nat, inodes: seq<Inode>, blocks: seq<seq<byte>>, dir: seq<Slot>, handles: seq<Handle>)
    requires 0 < blockSize && |dir| == blockSize / DIR_ENTRY_SIZE
    requires forall b :: 0 <= b < |blocks| ==> |blocks[b]| == blockSize
    ensures Init(blockSize, inodes, blocks, dir, handles).Some? <==> inodes != [] && blocks != []
    ensures Init(blockSize, inodes, blocks, dir, handles).Some? ==>
              var s := Init(blockSize, inodes, blocks, dir, handles).value;
              && Inv(s) && NameMap(s.dir) == map[]
              && (forall i :: Owns(s, i) <==> i == ROOT) && (forall h :: !OpenHandle(s, h))
  {
    if inodes != [] && blocks != [] {
      var s := Init(blockSize, inodes, blocks, dir, handles).value;
      forall i | ROOT < i < |s.inodes| ensures ExactAt(s.dir, s.inodeTaken, s.inodes, i) {
        assert Refs(s.dir, i) == {};
      }
      assert forall i :: Owns(s, i) <==> i == ROOT;
      assert HoldsBlock(s, ROOT);
    }
  }
}
