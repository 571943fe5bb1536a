/** When each call succeeds and what the client then sees, in terms of paths, bytes and what is still free. */
module TfsOutcomes {
  import opened Bytes
  import opened Directory
  import opened LinkGraph
  import opened Tfs
  import opened TfsInvariant
  import opened AbstractFs
  import opened TfsRefinement

  ghost predicate FreeInode(s: State) {
    exists i :: 0 <= i < |s.inodeTaken| && !s.inodeTaken[i]
  }

  ghost predicate FreeData(s: State) {
    exists b :: 0 <= b < |s.blockTaken| && !s.blockTaken[b]
  }

  ghost predicate FreeEntry(s: State) {
    exists k :: 0 <= k < |s.dir| && s.dir[k].inum == -1
  }

  ghost predicate FreeHandle(s: State) {
    exists h :: 0 <= h < |s.handleTaken| && !s.handleTaken[h]
  }

  /** A well-formed path whose name is in the directory. */
  ghost predicate Exists(s: State, p: Path) {
    |p| >= 2 && p[0] == 47 && p[1..] in Abs(s).names
  }

  lemma AvailExact(s: State)
    requires Core(s)
    ensures AvailOf(s).node.Some? <==> FreeInode(s)
    ensures AvailOf(s).block <==> FreeData(s)
    ensures AvailOf(s).slot <==> FreeEntry(s)
    ensures AvailOf(s).handle.Some? <==> FreeHandle(s)
    ensures Fresh(Abs(s), AvailOf(s))
  {
    var i, b, k, h := FirstFree(s.inodeTaken), FirstFree(s.blockTaken), FreeSlot(s.dir), FirstFree(s.handleTaken);
    assert i < |s.inodeTaken| ==> !s.inodeTaken[i];
    assert b < |s.blockTaken| ==> !s.blockTaken[b];
    assert k < |s.dir| ==> s.dir[k].inum == -1;
    assert h < |s.handleTaken| ==> !s.handleTaken[h];
  }

  /**
   Creation: a new path of 1 to 39 bytes after the '/' gets an empty file as long as an inode and an entry are free,
   and a handle at its start as long as a handle is free; nothing else changes.
   */
  lemma CreateOutcome(s: State, p: Path, mode: Mode)
    requires Inv(s) && NulFree(p) && mode.creat && |p| >= 2 && p[0] == 47 && p[1..] !in Abs(s).names
    ensures var (t, r) := Open(s, p, mode); var a, b := Abs(s), Abs(t);
            && (r.Some? <==> |p| <= 40 && FreeInode(s) && FreeEntry(s) && FreeHandle(s))
            && (p[1..] in b.names <==> |p| <= 40 && FreeInode(s) && FreeEntry(s))
            && (p[1..] in b.names ==>
                  var i := b.names[p[1..]];
                  && i !in a.nodes && b.names == a.names[p[1..] := i] && b.nodes == a.nodes[i := FileNode([])]
                  && (r.Some? ==> r.value !in a.cursors && b.cursors == a.cursors[r.value := Cursor(i, 0)]))
            && (p[1..] !in b.names ==> b == a)
            && (r.None? ==> b.cursors == a.cursors)
  {
    AvailExact(s);
    OpenRefines(s, p, mode);
  }

  /** A path that is not '/' and a name is refused by every call and changes nothing. */
  lemma BadPath(s: State, p: Path, q: Path, mode: Mode)
    requires Inv(s) && NulFree(p) && NulFree(q) && !(|p| >= 2 && p[0] == 47)
    ensures mode.creat || Terminates(Links(s), p)
    ensures Open(s, p, mode) == (s, None) && Unlink(s, p) == (s, false)
    ensures SymLink(s, q, p) == (s, false) && HardLink(s, q, p) == (s, false)
    ensures SymLink(s, p, q) == (s, false) && HardLink(s, p, q) == (s, false)
  {
    LinksDomain(s, p);
    assert Ends(Links(s), p, 0);
  }

  /** What an open of an existing file leaves: emptied if asked, a cursor at its end or its start. */
  ghost predicate OpensFile(a: AbsFs, b: AbsFs, r: Option<nat>, i: int, mode: Mode) {
    && i in a.nodes && a.nodes[i].FileNode?
    && b.names == a.names
    && b.nodes == a.nodes[i := if mode.trunc then FileNode([]) else a.nodes[i]]
    && (r.None? ==> b.cursors == a.cursors)
    && (r.Some? ==>
          && r.value !in a.cursors
          && b.cursors == a.cursors[r.value := Cursor(i, if mode.append then |b.nodes[i].content| else 0)])
  }

  lemma AOpenFile(a: AbsFs, v: Avail, p: Path, mode: Mode)
    requires -1 !in a.nodes && (forall n :: n in a.names ==> a.names[n] in a.nodes) && Fresh(a, v)
    requires |p| >= 2 && p[0] == 47 && p[1..] in a.names && !LinkAt(a, p)
    ensures Terminates(LinkGraphOf(a), p)
    ensures var (b, r) := AOpen(a, v, p, mode);
            OpensFile(a, b, r, a.names[p[1..]], mode) && (r.Some? <==> v.handle.Some?)
  {
    LinkGraphDomain(a, p);
    assert Ends(LinkGraphOf(a), p, 0);
  }

  /** Opening a file that exists fails only for want of a handle; other files and cursors are untouched. */
  lemma OpenOutcome(s: State, p: Path, mode: Mode)
    requires Inv(s) && NulFree(p) && Exists(s, p) && !LinkAt(Abs(s), p)
    ensures Resolves(Links(s), p, mode)
    ensures var (t, r) := Open(s, p, mode);
            OpensFile(Abs(s), Abs(t), r, Abs(s).names[p[1..]], mode) && (r.Some? <==> FreeHandle(s))
  {
    AvailExact(s);
    GraphAbs(s);
    NamesLive(s);
    AOpenFile(Abs(s), AvailOf(s), p, mode);
    OpenRefines(s, p, mode);
  }

  lemma NamesLive(s: State)
    requires Core(s)
    ensures forall n :: n in Abs(s).names ==> Abs(s).names[n] in Abs(s).nodes
  {
    forall n | n in Abs(s).names ensures Abs(s).names[n] in Abs(s).nodes { NameLive(s, n); }
  }

  /** A symbolic link is made exactly when its target exists, its own path is new and proper, and there is room. */
  lemma SymLinkOutcome(s: State, target: Path, link: Path)
    requires Inv(s) && NulFree(target) && NulFree(link)
    ensures SymLink(s, target, link).1 <==>
            && Exists(s, target) && 2 <= |link| <= 40 && link[0] == 47 && link[1..] !in Abs(s).names
            && FreeInode(s) && FreeData(s) && FreeEntry(s)
    ensures var (t, ok) := SymLink(s, target, link); var a, b := Abs(s), Abs(t);
            && (!ok ==> b == a)
            && (ok ==> link[1..] in b.names
                       && var i := b.names[link[1..]];
                          && i !in a.nodes && b.names == a.names[link[1..] := i]
                          && b.nodes == a.nodes[i := LinkNode(target)] && b.cursors == a.cursors)
  {
    AvailExact(s);
    SymLinkRefines(s, target, link);
    NamesLive(s);
  }

  /** A hard link is made exactly when its target is a file, its own path is new and proper, and an entry is free. */
  lemma HardLinkOutcome(s: State, target: Path, link: Path)
    requires Inv(s) && NulFree(target) && NulFree(link)
    ensures var a := Abs(s);
            HardLink(s, target, link).1 <==>
            && Exists(s, target) && a.names[target[1..]] in a.nodes && a.nodes[a.names[target[1..]]].FileNode?
            && 2 <= |link| <= 40 && link[0] == 47 && link[1..] !in a.names && FreeEntry(s)
    ensures var (t, ok) := HardLink(s, target, link); var a := Abs(s);
            && (!ok ==> Abs(t) == a)
            && (ok ==> Abs(t) == a.(names := a.names[link[1..] := a.names[target[1..]]]))
  {
    AvailExact(s);
    HardLinkRefines(s, target, link);
    NamesLive(s);
  }

  /** An unlink succeeds exactly when the path exists and no handle is on its file. */
  lemma UnlinkOutcome(s: State, p: Path)
    requires Inv(s) && NulFree(p)
    ensures var a := Abs(s);
            Unlink(s, p).1 <==> Exists(s, p) && forall h :: h in a.cursors ==> a.cursors[h].node != a.names[p[1..]]
    ensures var (t, ok) := Unlink(s, p);
            Abs(t).names == (if ok then Abs(s).names - {p[1..]} else Abs(s).names) && Abs(t).cursors == Abs(s).cursors
  {
    UnlinkRefines(s, p);
    NamesLive(s);
  }

  // ---------------------------------------------------------------- reading back

  /** Bytes that can be written at the cursor of an open handle. */
  ghost function Room(s: State, h: int): nat
    requires Inv(s) && h in Abs(s).cursors
  {
    CursorAbs(s, h);
    s.blockSize - Abs(s).cursors[h].offset
  }

  /** A write returns how many bytes it took: all of them, or as many as the block has room for. */
  lemma WriteOutcome(s: State, h: int, data: seq<byte>)
    requires Inv(s) && h in Abs(s).cursors
    ensures var (t, r) := Write(s, h, data); var n := if |data| <= Room(s, h) then |data| else Room(s, h);
            && (r.None? <==> n > 0 && !FreeData(s) && Abs(s).nodes[Abs(s).cursors[h].node].content == [])
            && (r.None? ==> Abs(t) == Abs(s))
            && (r.Some? ==> r.value == n)
  {
    AvailExact(s);
    CursorAbs(s, h);
    WriteRefines(s, h, data);
  }

  const PLAIN := Mode(false, false, false)

  /** The file that a path names. */
  ghost predicate Holds(a: AbsFs, p: Path, content: seq<byte>) {
    && |p| >= 2 && p[0] == 47 && p[1..] in a.names
    && a.names[p[1..]] in a.nodes && a.nodes[a.names[p[1..]]] == FileNode(content)
  }

  /** Opening a path and reading gives the first bytes of its file. */
  lemma ReadFile(s: State, p: Path, content: seq<byte>, len: nat)
    requires Inv(s) && NulFree(p) && Holds(Abs(s), p, content) && FreeHandle(s)
    ensures Resolves(Links(s), p, PLAIN)
    ensures var (u, g) := Open(s, p, PLAIN);
            && g.Some? && Inv(u)
            && Read(u, g.value, len).1 == Some(if |content| <= len then content else content[..len])
  {
    OpenOutcome(s, p, PLAIN);
    OpenKeeps(s, p, PLAIN);
    var (u, g) := Open(s, p, PLAIN);
    ReadStart(u, g.value, Abs(s).names[p[1..]], content, len);
  }

  lemma ReadStart(u: State, g: int, i: int, content: seq<byte>, len: nat)
    requires Inv(u) && g in Abs(u).cursors && Abs(u).cursors[g] == Cursor(i, 0)
    requires i in Abs(u).nodes && Abs(u).nodes[i] == FileNode(content)
    ensures Read(u, g, len).1 == Some(if |content| <= len then content else content[..len])
  {
    ReadRefines(u, g, len);
  }

  lemma AWriteStart(a: AbsFs, v: Avail, blockSize: nat, h: int, data: seq<byte>, i: int)
    requires h in a.cursors && a.cursors[h] == Cursor(i, 0) && i in a.nodes && a.nodes[i] == FileNode([])
    requires v.block && |data| <= blockSize
    ensures var (b, r) := AWrite(a, v, blockSize, h, data);
            r == Some(|data|) && b.names == a.names && b.nodes == a.nodes[i := FileNode(data)]
  {
    assert data[..|data|] == data && Overwrite([], 0, data) == data;
  }

  lemma HandlesKept(s: State, h: int, data: seq<byte>)
    requires Inv(s)
    ensures Write(s, h, data).0.handleTaken == s.handleTaken
  {
  }

  /**
   Reading back: what is written to an empty file through a handle is what a fresh open of any of its names reads.
   */
  lemma ReadBack(s: State, h: int, data: seq<byte>, p: Path, len: nat)
    requires Inv(s) && NulFree(p) && Holds(Abs(s), p, []) && FreeHandle(s) && FreeData(s) && |data| <= s.blockSize
    requires h in Abs(s).cursors && Abs(s).cursors[h] == Cursor(Abs(s).names[p[1..]], 0)
    ensures var (t, r) := Write(s, h, data);
            && r == Some(|data|) && Inv(t) && Resolves(Links(t), p, PLAIN)
            && var (u, g) := Open(t, p, PLAIN);
               && g.Some? && Inv(u)
               && Read(u, g.value, len).1 == Some(if |data| <= len then data else data[..len])
  {
    WriteKeeps(s, h, data);
    WriteRefines(s, h, data);
    AvailExact(s);
    AWriteStart(Abs(s), AvailOf(s), s.blockSize, h, data, Abs(s).names[p[1..]]);
    HandlesKept(s, h, data);
    var t := Write(s, h, data).0;
    assert Holds(Abs(t), p, data);
    ReadFile(t, p, data, len);
  }
}
