/**
 The file system a client sees: names map to nodes, a node is a byte sequence or a stored path, a handle
 is a cursor. No inode table, no blocks, no directory slots; `Avail` says what the tables can still give.
 */
module AbstractFs {
  import opened Bytes
  import opened Directory
  import opened LinkGraph
  import opened Tfs

  /** A path is '/' and a name. */
  predicate IsPath(p: Path) {
    |p| >= 2 && p[0] == 47
  }

  /** Names have from 1 to 39 bytes. */
  predicate IsName(n: Name) {
    1 <= |n| <= 39
  }

  datatype Node = FileNode(content: seq<byte>) | LinkNode(target: Path)

  datatype Cursor = Cursor(node: int, offset: nat)

  datatype AbsFs = AbsFs(names: map<Name, int>, nodes: map<int, Node>, cursors: map<int, Cursor>)

  datatype Avail = Avail(node: Option<nat>, block: bool, slot: bool, handle: Option<nat>)

  /** New nodes and new handles are not in use. */
  ghost predicate Fresh(a: AbsFs, v: Avail) {
    && (v.node.Some? ==> v.node.value !in a.nodes)
    && (v.handle.Some? ==> v.handle.value !in a.cursors)
  }

  /** A handle is a cursor inside a file that fits one block. */
  ghost predicate CursorOk(a: AbsFs, blockSize: nat, h: int) {
    h in a.cursors ==>
      && a.cursors[h].node in a.nodes
      && a.nodes[a.cursors[h].node].FileNode?
      && a.cursors[h].offset <= |a.nodes[a.cursors[h].node].content| <= blockSize
  }

  ghost function NodeAt(a: AbsFs, p: Path): int {
    if IsPath(p) && p[1..] in a.names then a.names[p[1..]] else -1
  }

  ghost predicate LinkAt(a: AbsFs, p: Path) {
    NodeAt(a, p) in a.nodes && a.nodes[NodeAt(a, p)].LinkNode?
  }

  ghost function LinkGraphOf(a: AbsFs): Graph {
    map p | p in (set n | n in a.names :: [47] + n) && LinkAt(a, p) :: a.nodes[NodeAt(a, p)].target
  }

  lemma LinkGraphDomain(a: AbsFs, p: Path)
    requires -1 !in a.nodes
    ensures p in LinkGraphOf(a) <==> LinkAt(a, p)
  {
    if LinkAt(a, p) { assert p == [47] + p[1..]; }
  }

  ghost function AOpenHandle(a: AbsFs, v: Avail, i: int, offset: nat): (AbsFs, Option<nat>) {
    match v.handle
    case None => (a, None)
    case Some(h) => (a.(cursors := a.cursors[h := Cursor(i, offset)]), Some(h))
  }

  ghost function AOpenName(a: AbsFs, v: Avail, p: Path, mode: Mode): (AbsFs, Option<nat>)
    requires NodeAt(a, p) != -1 ==> NodeAt(a, p) in a.nodes && a.nodes[NodeAt(a, p)].FileNode?
  {
    var i := NodeAt(a, p);
    if i != -1 then
      var a1 := if mode.trunc then a.(nodes := a.nodes[i := FileNode([])]) else a;
      AOpenHandle(a1, v, i, if mode.append then |a1.nodes[i].content| else 0)
    else if mode.creat && IsPath(p) && IsName(p[1..]) && v.node.Some? && v.slot then
      var j := v.node.value;
      AOpenHandle(a.(names := a.names[p[1..] := j], nodes := a.nodes[j := FileNode([])]), v, j, 0)
    else (a, None)
  }

  /** Open follows links to the last path of their chain, except that creation refuses a link. */
  ghost function AOpen(a: AbsFs, v: Avail, p: Path, mode: Mode): (AbsFs, Option<nat>)
    requires Resolves(LinkGraphOf(a), p, mode) && -1 !in a.nodes
    requires forall n :: n in a.names ==> a.names[n] in a.nodes
  {
    if mode.creat then
      if LinkAt(a, p) then (a, None) else AOpenName(a, v, p, mode)
    else
      LinkGraphDomain(a, Final(LinkGraphOf(a), p));
      AOpenName(a, v, Final(LinkGraphOf(a), p), mode)
  }

  ghost predicate CanName(a: AbsFs, v: Avail, target: Path, link: Path) {
    && NodeAt(a, target) != -1 && NodeAt(a, link) == -1
    && IsPath(link) && IsName(link[1..]) && v.slot
  }

  ghost function ASymLink(a: AbsFs, v: Avail, target: Path, link: Path): (AbsFs, bool) {
    if CanName(a, v, target, link) && v.node.Some? && v.block then
      (a.(names := a.names[link[1..] := v.node.value], nodes := a.nodes[v.node.value := LinkNode(target)]), true)
    else (a, false)
  }

  ghost function AHardLink(a: AbsFs, v: Avail, target: Path, link: Path): (AbsFs, bool) {
    if CanName(a, v, target, link) && !LinkAt(a, target) then
      (a.(names := a.names[link[1..] := NodeAt(a, target)]), true)
    else (a, false)
  }

  /** The name goes; the node goes with its last name. An open file keeps its names. */
  ghost function AUnlink(a: AbsFs, p: Path): (AbsFs, bool) {
    var i := NodeAt(a, p);
    if i == -1 || exists h :: h in a.cursors && a.cursors[h].node == i then (a, false)
    else
      var names := a.names - {p[1..]};
      (a.(names := names, nodes := if exists n :: n in names && names[n] == i then a.nodes else a.nodes - {i}), true)
  }

  ghost function AClose(a: AbsFs, h: int): (AbsFs, bool) {
    if h in a.cursors then (a.(cursors := a.cursors - {h}), true) else (a, false)
  }

  /** Bytes are spliced in at the cursor, clipped to the block size; only this node and this cursor change. */
  ghost function AWrite(a: AbsFs, v: Avail, blockSize: nat, h: int, data: seq<byte>): (AbsFs, Option<nat>)
    requires CursorOk(a, blockSize, h)
  {
    if h !in a.cursors then (a, None)
    else
      var c := a.cursors[h];
      var content := a.nodes[c.node].content;
      var n := Clip(blockSize, c.offset, |data|);
      if n == 0 then (a, Some(0))
      else if content == [] && !v.block then (a, None)
      else (a.(nodes := a.nodes[c.node := FileNode(Overwrite(content, c.offset, data[..n]))],
               cursors := a.cursors[h := Cursor(c.node, c.offset + n)]), Some(n))
  }

  /** The exact slice from the cursor. */
  ghost function ARead(a: AbsFs, blockSize: nat, h: int, len: nat): (AbsFs, Option<seq<byte>>)
    requires CursorOk(a, blockSize, h)
  {
    if h !in a.cursors then (a, None)
    else
      var c := a.cursors[h];
      var content := a.nodes[c.node].content;
      var n := if |content| - c.offset > len then len else |content| - c.offset;
      (a.(cursors := a.cursors[h := Cursor(c.node, c.offset + n)]), Some(content[c.offset..c.offset + n]))
  }
}
