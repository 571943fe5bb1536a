/**
 TecnicoFS with links (fs/): the state kept in fs/state.c and the API calls of fs/operations.c as
 functions from a state to the next state and the returned value (`None` is the C return value -1).
 */
module Tfs {
  import opened Bytes
  import opened Directory
  import opened LinkGraph

  datatype Kind = File | Directory | Link

  datatype Inode = Inode(kind: Kind, links: nat, size: nat, block: int)

  datatype Handle = Handle(inum: int, offset: nat)

  datatype Mode = Mode(creat: bool, trunc: bool, append: bool)

  datatype State = State(
    blockSize: nat,
    inodes: seq<Inode>, inodeTaken: seq<bool>,
    blocks: seq<seq<byte>>, blockTaken: seq<bool>,
    dir: seq<Slot>,
    handles: seq<Handle>, handleTaken: seq<bool>)

  // ---------------------------------------------------------------- invariant

  ghost predicate Shape(s: State) {
    && 0 < s.blockSize
    && 0 < |s.inodes| == |s.inodeTaken|
    && |s.blocks| == |s.blockTaken|
    && |s.handles| == |s.handleTaken|
    && |s.dir| == s.blockSize / DIR_ENTRY_SIZE
    && (forall b :: 0 <= b < |s.blocks| ==> |s.blocks[b]| == s.blockSize)
  }

  predicate Live(s: State, i: int) {
    0 <= i < |s.inodeTaken| == |s.inodes| && s.inodeTaken[i]
  }

  /** The inode holds a data block: the root, a file with bytes, a symbolic link. */
  predicate Owns(s: State, i: int) {
    Live(s, i) && (s.inodes[i].kind == Link || s.inodes[i].size > 0)
  }

  predicate IsFile(s: State, i: int) {
    Live(s, i) && s.inodes[i].kind == File
  }

  predicate OpenHandle(s: State, h: int) {
    0 <= h < |s.handleTaken| == |s.handles| && s.handleTaken[h]
  }

  ghost predicate RootInv(s: State) {
    Live(s, ROOT) && s.inodes[ROOT].kind == Directory && s.inodes[ROOT].size == s.blockSize
  }

  /** Link counts are exact at one inode: it is live exactly when named, and its count is the number of names. */
  ghost predicate ExactAt(d: seq<Slot>, taken: seq<bool>, inodes: seq<Inode>, i: int)
    requires 0 <= i < |taken| == |inodes|
  {
    && (taken[i] <==> LinkCount(d, i) > 0)
    && (taken[i] ==> inodes[i].links == LinkCount(d, i))
  }

  ghost predicate InRange(d: seq<Slot>, n: nat) {
    forall k :: 0 <= k < |d| && Occupied(d[k]) ==> ROOT < d[k].inum < n
  }

  /** Directory names are distinct, entries name live non-root inodes, and link counts are exact. */
  ghost predicate LinksExact(d: seq<Slot>, taken: seq<bool>, inodes: seq<Inode>) {
    && |taken| == |inodes|
    && DirInv(d)
    && InRange(d, |taken|)
    && (forall i :: ROOT < i < |taken| ==> ExactAt(d, taken, inodes, i))
  }

  ghost predicate KindInv(s: State) {
    forall i :: ROOT < i < |s.inodes| && Live(s, i) ==>
      && s.inodes[i].kind != Directory
      && (s.inodes[i].kind == Link ==> s.inodes[i].links == 1 && s.inodes[i].size == 0)
      && s.inodes[i].size <= s.blockSize
  }

  predicate HoldsBlock(s: State, i: int)
    requires Owns(s, i)
  {
    0 <= s.inodes[i].block < |s.blockTaken| == |s.blocks| && s.blockTaken[s.inodes[i].block]
  }

  /** Owners hold pairwise distinct TAKEN blocks. */
  ghost predicate BlockInv(s: State) {
    && (forall i :: Owns(s, i) ==> HoldsBlock(s, i))
    && (forall i, j :: Owns(s, i) && Owns(s, j) && i != j ==> s.inodes[i].block != s.inodes[j].block)
  }

  predicate ValidPath(p: Path) {
    |p| > 1 && p[0] == SLASH
  }

  predicate StoredTarget(s: State, i: int)
    requires Owns(s, i) && HoldsBlock(s, i)
  {
    var t := CStr(s.blocks[s.inodes[i].block]);
    ValidPath(t) && |t| < s.blockSize
  }

  ghost predicate TargetInv(s: State)
    requires BlockInv(s)
  {
    forall i :: Owns(s, i) && s.inodes[i].kind == Link ==> StoredTarget(s, i)
  }

  /** Every open handle names a live regular file, never the root or a symbolic link. */
  ghost predicate HandleInv(s: State) {
    forall h :: OpenHandle(s, h) ==> s.handles[h].inum != ROOT && IsFile(s, s.handles[h].inum)
  }

  ghost predicate Core(s: State) {
    && Shape(s) && RootInv(s) && LinksExact(s.dir, s.inodeTaken, s.inodes) && KindInv(s)
    && BlockInv(s) && TargetInv(s) && HandleInv(s)
  }

  /** No cursor is past the end of its file, so `i_size - of_offset` (fs/operations.c:400) does not wrap. */
  ghost predicate CursorInv(s: State)
    requires HandleInv(s)
  {
    forall h :: OpenHandle(s, h) ==> s.handles[h].offset <= s.inodes[s.handles[h].inum].size
  }

  ghost predicate Inv(s: State) {
    Core(s) && CursorInv(s)
  }

  // ---------------------------------------------------------------- fs/state.c

  /** `inode_create` for files and links. */
  function CreateInode(s: State, kind: Kind): Option<(State, nat)>
    requires |s.inodes| == |s.inodeTaken|
  {
    var i := FirstFree(s.inodeTaken);
    if i == |s.inodeTaken| then None
    else Some((s.(inodeTaken := s.inodeTaken[i := true], inodes := s.inodes[i := Inode(kind, 1, 0, -1)]), i))
  }

  /** `inode_create` for a directory: it also takes a block, whose slots it empties, or gives the inode back. */
  function CreateDirectory(s: State): (State, Option<nat>)
    requires |s.inodes| == |s.inodeTaken|
  {
    var i, b := FirstFree(s.inodeTaken), FirstFree(s.blockTaken);
    if i == |s.inodeTaken| then (s, None)
    else if b == |s.blockTaken| then (s.(inodes := s.inodes[i := Inode(Directory, 1, 0, -1)]), None)
    else
      (s.(inodeTaken := s.inodeTaken[i := true], inodes := s.inodes[i := Inode(Directory, 1, s.blockSize, b)],
          blockTaken := s.blockTaken[b := true], dir := EmptySlots(s.dir)), Some(i))
  }

  function FreeBlock(taken: seq<bool>, b: int): seq<bool> {
    if 0 <= b < |taken| then taken[b := false] else taken
  }

  /** `inode_delete` of a TAKEN inode: the block is given back only when the size is positive. */
  function DeleteInode(s: State, i: nat): State
    requires i < |s.inodes| == |s.inodeTaken|
  {
    s.(inodeTaken := s.inodeTaken[i := false],
       blockTaken := if s.inodes[i].size > 0 then FreeBlock(s.blockTaken, s.inodes[i].block) else s.blockTaken)
  }

  function AllocBlock(s: State): Option<(State, nat)> {
    var b := FirstFree(s.blockTaken);
    if b == |s.blockTaken| then None else Some((s.(blockTaken := s.blockTaken[b := true]), b))
  }

  /** `add_to_open_file_table`. */
  function Register(s: State, i: nat, offset: nat): (State, Option<nat>)
    requires |s.handles| == |s.handleTaken|
  {
    var h := FirstFree(s.handleTaken);
    if h == |s.handleTaken| then (s, None)
    else (s.(handleTaken := s.handleTaken[h := true], handles := s.handles[h := Handle(i, offset)]), Some(h))
  }

  predicate IsOpen(s: State, i: int)
    requires |s.handles| == |s.handleTaken|
  {
    exists h :: 0 <= h < |s.handles| && s.handleTaken[h] && s.handles[h].inum == i
  }

  // ---------------------------------------------------------------- fs/operations.c

  function Lookup(s: State, p: Path): int {
    if !ValidPath(p) then -1 else Find(s.dir, p[1..])
  }

  predicate IsLink(s: State, p: Path) {
    Live(s, Lookup(s, p)) && s.inodes[Lookup(s, p)].kind == Link
  }

  /** The path a symbolic link stores in its block. */
  function Target(s: State, p: Path): Path
    requires Core(s) && IsLink(s, p)
  {
    assert Owns(s, Lookup(s, p)) && HoldsBlock(s, Lookup(s, p));
    CStr(s.blocks[s.inodes[Lookup(s, p)].block])
  }

  /** The live symbolic links and what they store. */
  ghost function Links(s: State): Graph
    requires Core(s)
  {
    map p | p in (set k | 0 <= k < |s.dir| :: [SLASH] + CStr(s.dir[k].name)) && IsLink(s, p) :: Target(s, p)
  }

  lemma LookupLive(s: State, p: Path)
    requires Core(s) && Lookup(s, p) != -1
    ensures Live(s, Lookup(s, p)) && ROOT < Lookup(s, p)
    ensures ValidPath(p) && GoodName(p[1..])
    ensures |p| < s.blockSize
  {
    var k := FindSlot(s.dir, p[1..]);
    assert Occupied(s.dir[k]);
    assert k in Refs(s.dir, s.dir[k].inum);
    assert ExactAt(s.dir, s.inodeTaken, s.inodes, s.dir[k].inum);
  }

  lemma LinksDomain(s: State, p: Path)
    requires Core(s)
    ensures p in Links(s) <==> IsLink(s, p)
    ensures p in Links(s) ==> Links(s)[p] == Target(s, p)
  {
    if IsLink(s, p) {
      var k := FindSlot(s.dir, p[1..]);
      assert p == [SLASH] + CStr(s.dir[k].name);
    }
  }

  /** `tfs_open` of an existing regular file: truncation and the initial offset. */
  function Truncated(s: State, i: nat, mode: Mode): State
    requires i < |s.inodes|
  {
    if mode.trunc && s.inodes[i].size > 0 then
      s.(blockTaken := FreeBlock(s.blockTaken, s.inodes[i].block),
         inodes := s.inodes[i := s.inodes[i].(size := 0)])
    else s
  }

  /** `tfs_open` of a path that is not a symbolic link. */
  function OpenName(s: State, p: Path, mode: Mode): (State, Option<nat>)
    requires Core(s)
  {
    if !ValidPath(p) then (s, None)
    else
      var i := Lookup(s, p);
      if i >= 0 then
        LookupLive(s, p);
        var s1 := Truncated(s, i, mode);
        Register(s1, i, if mode.append then s1.inodes[i].size else 0)
      else if mode.creat then
        match CreateInode(s, File)
        case None => (s, None)
        case Some((s1, j)) =>
          match Add(s1.dir, p[1..], j)
          case None => (DeleteInode(s1, j), None)
          case Some(d) => Register(s1.(dir := d), j, 0)
      else (s, None)
  }

  /** An open of this path ends: creation refuses a link at once, any other mode follows the chain. */
  ghost predicate Resolves(g: Graph, p: Path, mode: Mode) {
    mode.creat || Terminates(g, p)
  }

  ghost function Depth(g: Graph, p: Path, mode: Mode): nat
    requires Resolves(g, p, mode)
  {
    if mode.creat then 0 else Hops(g, p)
  }

  function Open(s: State, p: Path, mode: Mode): (State, Option<nat>)
    requires Core(s) && Resolves(Links(s), p, mode)
    decreases Depth(Links(s), p, mode)
  {
    if IsLink(s, p) then
      if mode.creat then (s, None)
      else
        LinksDomain(s, p);
        HopsStep(Links(s), p);
        Open(s, Target(s, p), mode)
    else OpenName(s, p, mode)
  }

  function SymLink(s: State, target: Path, link: Path): (State, bool)
    requires Core(s)
  {
    if !ValidPath(link) || Lookup(s, target) == -1 || Lookup(s, link) != -1 then (s, false)
    else
      LookupLive(s, target);
      match CreateInode(s, Link)
      case None => (s, false)
      case Some((s1, i)) =>
        match AllocBlock(s1)
        case None => (DeleteInode(s1, i), false)
        case Some((s2, b)) =>
          var s3 := s2.(blocks := s2.blocks[b := Splice(s2.blocks[b], 0, target + [0])],
                        inodes := s2.inodes[i := s2.inodes[i].(block := b)]);
          match Add(s3.dir, link[1..], i)
          case None => (DeleteInode(s3, i), false)
          case Some(d) => (s3.(dir := d), true)
  }

  function HardLink(s: State, target: Path, link: Path): (State, bool)
    requires Core(s)
  {
    var i := Lookup(s, target);
    if !ValidPath(link) || i == -1 || Lookup(s, link) != -1 then (s, false)
    else
      LookupLive(s, target);
      if s.inodes[i].kind == Link then (s, false)
      else
        match Add(s.dir, link[1..], i)
        case None => (s, false)
        case Some(d) => (s.(dir := d, inodes := s.inodes[i := s.inodes[i].(links := s.inodes[i].links + 1)]), true)
  }

  function Unlink(s: State, p: Path): (State, bool)
    requires Core(s)
  {
    var i := Lookup(s, p);
    if i == -1 then (s, false)
    else
      LookupLive(s, p);
      if s.inodes[i].kind != Link && IsOpen(s, i) then (s, false)
      else
        match Clear(s.dir, p[1..])
        case None => (s, false)
        case Some(d) =>
          if s.inodes[i].links == 1 then (DeleteInode(s.(dir := d), i), true)
          else
            assert ExactAt(s.dir, s.inodeTaken, s.inodes, i);
            (s.(dir := d, inodes := s.inodes[i := s.inodes[i].(links := s.inodes[i].links - 1)]), true)
  }

  function Close(s: State, h: int): (State, bool) {
    if OpenHandle(s, h) then (s.(handleTaken := s.handleTaken[h := false]), true) else (s, false)
  }

  /** `tfs_write`: the bytes that fit are copied at the cursor; an empty file first gets a block. */
  function Write(s: State, h: int, data: seq<byte>): (State, Option<nat>)
    requires Inv(s)
  {
    if !OpenHandle(s, h) then (s, None)
    else
      var i, off := s.handles[h].inum, s.handles[h].offset;
      var n := Clip(s.blockSize, off, |data|);
      if n == 0 then (s, Some(0))
      else if s.inodes[i].size == 0 then
        match AllocBlock(s)
        case None => (s, None)
        case Some((s1, b)) => (Store(s1, h, i, b, off, data[..n]), Some(n))
      else
        assert Owns(s, i) && HoldsBlock(s, i);
        (Store(s, h, i, s.inodes[i].block, off, data[..n]), Some(n))
  }

  function Store(s: State, h: nat, i: nat, b: nat, off: nat, data: seq<byte>): State
    requires h < |s.handles| && i < |s.inodes| && b < |s.blocks| && off + |data| <= |s.blocks[b]|
  {
    s.(blocks := s.blocks[b := Splice(s.blocks[b], off, data)],
       inodes := s.inodes[i := s.inodes[i].(block := b, size := Max(s.inodes[i].size, off + |data|))],
       handles := s.handles[h := s.handles[h].(offset := off + |data|)])
  }

  /** `tfs_read`. */
  function Read(s: State, h: int, len: nat): (State, Option<seq<byte>>)
    requires Inv(s)
  {
    if !OpenHandle(s, h) then (s, None)
    else
      var i, off := s.handles[h].inum, s.handles[h].offset;
      var rest := s.inodes[i].size - off;
      var n := if rest > len then len else rest;
      if n == 0 then (s, Some([]))
      else
        assert Owns(s, i) && HoldsBlock(s, i);
        (s.(handles := s.handles[h := s.handles[h].(offset := off + n)]),
         Some(s.blocks[s.inodes[i].block][off..off + n]))
  }

  /**
   `tfs_init`: every vector is marked FREE, the root inode takes inode 0 and block 0 and its slots are emptied.
   The arguments are what the allocated memory happens to hold; slot names are left as they are.
   */
  function Init(blockSize: nat, inodes: seq<Inode>, blocks: seq<seq<byte>>, dir: seq<Slot>, handles: seq<Handle>)
    : Option<State>
  {
    if |inodes| == 0 || |blocks| == 0 then None
    else Some(State(
      blockSize,
      inodes[ROOT := Inode(Directory, 1, blockSize, 0)], seq(|inodes|, i => i == ROOT),
      blocks, seq(|blocks|, b => b == 0),
      EmptySlots(dir),
      handles, seq(|handles|, _ => false)))
  }

  function EmptySlots(dir: seq<Slot>): seq<Slot> {
    seq(|dir|, k requires 0 <= k < |dir| => Slot(dir[k].name, -1))
  }
}
