/**
 TecnicoFS as the program runs it: the tables of fs/state.c are arrays updated in place, the allocators and
 the directory scans are loops. Every method is proved against the function of module Tfs that specifies it.
 */
module FileSystem {
  import opened Bytes
  import opened Directory
  import opened LinkGraph
  import opened Tfs
  import opened TfsInvariant

  class FileSystem {
    const blockSize: nat
    const inodes: array<Inode>
    const inodeTaken: array<bool>
    const blocks: array<seq<byte>>
    const blockTaken: array<bool>
    const dir: array<Slot>
    const handles: array<Handle>
    const handleTaken: array<bool>

    ghost function View(): State
      reads inodes, inodeTaken, blocks, blockTaken, dir, handles, handleTaken
    {
      State(blockSize, inodes[..], inodeTaken[..], blocks[..], blockTaken[..], dir[..], handles[..], handleTaken[..])
    }

    /** The tables are separate and of matching sizes. */
    ghost predicate Shaped() {
      && inodeTaken != blockTaken && inodeTaken != handleTaken && blockTaken != handleTaken
      && inodes.Length == inodeTaken.Length
      && blocks.Length == blockTaken.Length
      && handles.Length == handleTaken.Length
    }

    ghost predicate Valid()
      reads inodes, inodeTaken, blocks, blockTaken, dir, handles, handleTaken
    {
      Shaped() && Inv(View())
    }

    /** `state_init`: memory is allocated and every allocation vector is marked FREE. */
    constructor (blockSize: nat, maxInodes: nat, maxBlocks: nat, maxOpen: nat)
      ensures Shaped()
      ensures fresh(inodes) && fresh(inodeTaken) && fresh(blocks) && fresh(blockTaken)
      ensures fresh(dir) && fresh(handles) && fresh(handleTaken)
      ensures this.blockSize == blockSize && inodes.Length == maxInodes && blocks.Length == maxBlocks
      ensures handles.Length == maxOpen && dir.Length == blockSize / DIR_ENTRY_SIZE
      ensures forall b :: 0 <= b < maxBlocks ==> |blocks[b]| == blockSize
      ensures forall i :: 0 <= i < maxInodes ==> !inodeTaken[i]
      ensures forall i :: 0 <= i < maxBlocks ==> !blockTaken[i]
      ensures forall i :: 0 <= i < maxOpen ==> !handleTaken[i]
    {
      this.blockSize := blockSize;
      inodes := new Inode[maxInodes];
      inodeTaken := new bool[maxInodes](_ => false);
      blocks := new seq<byte>[maxBlocks](_ => Zeros(blockSize));
      blockTaken := new bool[maxBlocks](_ => false);
      dir := new Slot[blockSize / DIR_ENTRY_SIZE];
      handles := new Handle[maxOpen];
      handleTaken := new bool[maxOpen](_ => false);
    }

    // ---------------------------------------------------------------- allocation vectors

    /** `inode_alloc` and the initialisation of files and links in `inode_create`. */
    method InodeCreate(kind: Kind) returns (r: Option<nat>)
      requires Shaped() && kind != Directory
      modifies inodes, inodeTaken
      ensures match CreateInode(old(View()), kind)
              case None => r == None && View() == old(View())
              case Some((t, i)) => r == Some(i) && View() == t
    {
      for i := 0 to inodeTaken.Length
        invariant forall j :: 0 <= j < i ==> inodeTaken[j]
        invariant View() == old(View())
      {
        if !inodeTaken[i] {
          inodeTaken[i] := true;
          inodes[i] := Inode(kind, 1, 0, -1);
          return Some(i);
        }
      }
      return None;
    }

    method DataBlockAlloc() returns (r: Option<nat>)
      requires Shaped()
      modifies blockTaken
      ensures match AllocBlock(old(View()))
              case None => r == None && View() == old(View())
              case Some((t, b)) => r == Some(b) && View() == t
    {
      for b := 0 to blockTaken.Length
        invariant forall j :: 0 <= j < b ==> blockTaken[j]
        invariant View() == old(View())
      {
        if !blockTaken[b] {
          blockTaken[b] := true;
          return Some(b);
        }
      }
      return None;
    }

    method DataBlockFree(b: int)
      requires Shaped()
      modifies blockTaken
      ensures View() == old(View()).(blockTaken := FreeBlock(old(View()).blockTaken, b))
    {
      if 0 <= b < blockTaken.Length { blockTaken[b] := false; }
    }

    /** `inode_delete`: fails on an invalid inumber and on an inode that is already FREE. */
    method InodeDelete(i: int) returns (ok: bool)
      requires Shaped()
      modifies inodeTaken, blockTaken
      ensures ok == Live(old(View()), i)
      ensures View() == if ok then DeleteInode(old(View()), i) else old(View())
    {
      if !(0 <= i < inodes.Length) || !inodeTaken[i] { return false; }
      if inodes[i].size > 0 { DataBlockFree(inodes[i].block); }
      inodeTaken[i] := false;
      return true;
    }

    /** `inode_create` for a directory. */
    method InodeCreateDirectory() returns (r: Option<nat>)
      requires Shaped()
      modifies inodes, inodeTaken, blockTaken, dir
      ensures (View(), r) == CreateDirectory(old(View()))
    {
      var created := InodeCreate(File);
      if created == None { return None; }
      var i := created.value;
      inodes[i] := inodes[i].(kind := Directory);
      var block := DataBlockAlloc();
      if block == None {
        var _ := InodeDelete(i);
        assert inodeTaken[..] == old(inodeTaken[..]);
        assert inodes[..] == old(inodes[..])[i := Inode(Directory, 1, 0, -1)];
        return None;
      }
      inodes[i] := inodes[i].(size := blockSize, block := block.value);
      assert inodes[..] == old(inodes[..])[i := Inode(Directory, 1, blockSize, block.value)];
      EmptyDir();
      return Some(i);
    }

    method EmptyDir()
      modifies dir
      ensures dir[..] == EmptySlots(old(dir[..]))
    {
      for k := 0 to dir.Length
        invariant forall j :: 0 <= j < k ==> dir[j] == Slot(old(dir[j]).name, -1)
        invariant forall j :: k <= j < dir.Length ==> dir[j] == old(dir[j])
      {
        dir[k] := Slot(dir[k].name, -1);
      }
    }

    method AddToOpenFileTable(i: nat, offset: nat) returns (r: Option<nat>)
      requires Shaped()
      modifies handles, handleTaken
      ensures (View(), r) == Register(old(View()), i, offset)
    {
      for h := 0 to handleTaken.Length
        invariant forall j :: 0 <= j < h ==> handleTaken[j]
        invariant View() == old(View())
      {
        if !handleTaken[h] {
          handleTaken[h] := true;
          handles[h] := Handle(i, offset);
          return Some(h);
        }
      }
      return None;
    }

    method IsInOpenFileTable(i: int) returns (found: bool)
      requires Shaped()
      ensures found == IsOpen(View(), i)
    {
      for h := 0 to handleTaken.Length
        invariant forall j :: 0 <= j < h ==> !(handleTaken[j] && handles[j].inum == i)
      {
        if handleTaken[h] && handles[h].inum == i { return true; }
      }
      return false;
    }

    // ---------------------------------------------------------------- directory slots

    method FindInDir(n: Name) returns (i: int)
      ensures i == Find(dir[..], n)
    {
      for k := 0 to dir.Length
        invariant forall j :: 0 <= j < k ==> !Names(dir[j], n)
      {
        if Names(dir[k], n) { return dir[k].inum; }
      }
      return -1;
    }

    method AddDirEntry(n: Name, i: int) returns (ok: bool)
      requires Shaped()
      modifies dir
      ensures match Add(old(View()).dir, n, i)
              case None => !ok && View() == old(View())
              case Some(d) => ok && View() == old(View()).(dir := d)
    {
      if !GoodName(n) { return false; }
      for k := 0 to dir.Length
        invariant forall j :: 0 <= j < k ==> Occupied(dir[j])
        invariant View() == old(View())
      {
        if !Occupied(dir[k]) {
          dir[k] := Slot(Padded(n), i);
          return true;
        }
      }
      return false;
    }

    method ClearDirEntry(n: Name) returns (ok: bool)
      requires Shaped()
      modifies dir
      ensures match Clear(old(View()).dir, n)
              case None => !ok && View() == old(View())
              case Some(d) => ok && View() == old(View()).(dir := d)
    {
      for k := 0 to dir.Length
        invariant forall j :: 0 <= j < k ==> CStr(dir[j].name) != n
        invariant View() == old(View())
      {
        if CStr(dir[k].name) == n {
          dir[k] := Slot(Zeros(MAX_FILE_NAME), -1);
          return true;
        }
      }
      return false;
    }

    // ---------------------------------------------------------------- fs/operations.c

    /** `tfs_init` after `state_init`: the root takes the first inode and block and empties its slots. */
    method CreateRoot() returns (ok: bool)
      requires Shaped()
      requires 0 < blockSize && dir.Length == blockSize / DIR_ENTRY_SIZE
      requires forall b :: 0 <= b < blocks.Length ==> |blocks[b]| == blockSize
      requires forall i :: 0 <= i < inodeTaken.Length ==> !inodeTaken[i]
      requires forall i :: 0 <= i < blockTaken.Length ==> !blockTaken[i]
      requires forall i :: 0 <= i < handleTaken.Length ==> !handleTaken[i]
      modifies inodes, inodeTaken, blockTaken, dir
      ensures match Init(blockSize, old(inodes[..]), old(blocks[..]), old(dir[..]), old(handles[..]))
              case None => !ok
              case Some(t) => ok && View() == t
      ensures ok ==> Valid()
    {
      InitInv(blockSize, inodes[..], blocks[..], dir[..], handles[..]);
      var root := InodeCreateDirectory();
      ok := root == Some(ROOT);
      if ok {
        assert inodeTaken[..] == seq(inodes.Length, i => i == ROOT);
        assert blockTaken[..] == seq(blocks.Length, b => b == 0);
        assert handleTaken[..] == seq(handles.Length, _ => false);
      }
    }

    method LookupPath(p: Path) returns (i: int)
      ensures i == Lookup(View(), p)
    {
      if !ValidPath(p) { return -1; }
      i := FindInDir(p[1..]);
    }

    /** `tfs_open` once the path is known not to be a symbolic link. */
    method OpenName(p: Path, mode: Mode) returns (r: Option<nat>)
      requires Valid() && !IsLink(View(), p)
      modifies inodes, inodeTaken, blockTaken, dir, handles, handleTaken
      ensures (View(), r) == Tfs.OpenName(old(View()), p, mode)
    {
      if !ValidPath(p) { return None; }
      var i := LookupPath(p);
      if i >= 0 {
        LookupLive(View(), p);
        if mode.trunc && inodes[i].size > 0 {
          DataBlockFree(inodes[i].block);
          inodes[i] := inodes[i].(size := 0);
        }
        r := AddToOpenFileTable(i, if mode.append then inodes[i].size else 0);
      } else if mode.creat {
        r := OpenNew(p, mode);
      } else {
        r := None;
      }
    }

    method OpenNew(p: Path, mode: Mode) returns (r: Option<nat>)
      requires Valid() && ValidPath(p) && Lookup(View(), p) == -1 && mode.creat
      modifies inodes, inodeTaken, blockTaken, dir, handles, handleTaken
      ensures (View(), r) == Tfs.OpenName(old(View()), p, mode)
    {
      var created := InodeCreate(File);
      if created == None { return None; }
      var ok := AddDirEntry(p[1..], created.value);
      if !ok {
        var _ := InodeDelete(created.value);
        return None;
      }
      r := AddToOpenFileTable(created.value, 0);
    }

    /** `tfs_open`; the recursion through symbolic links ends when the chain does. */
    method Open(p: Path, mode: Mode) returns (r: Option<nat>)
      requires Valid() && NulFree(p) && Resolves(Links(View()), p, mode)
      modifies inodes, inodeTaken, blockTaken, dir, handles, handleTaken
      ensures (View(), r) == Tfs.Open(old(View()), p, mode)
      ensures Core(View())
      ensures Valid() <==> OpenSafe(old(View()), p, mode)
      decreases Depth(Links(View()), p, mode)
    {
      OpenKeeps(View(), p, mode);
      var i := LookupPath(p);
      if i >= 0 { LookupLive(View(), p); }
      if i >= 0 && inodes[i].kind == Link {
        if mode.creat { return None; }
        LinksDomain(View(), p);
        HopsStep(Links(View()), p);
        assert Owns(View(), i) && HoldsBlock(View(), i);
        r := Open(CStr(blocks[inodes[i].block]), mode);
      } else {
        r := OpenName(p, mode);
      }
    }

    /** The copy of a link's target into its block. */
    method StoreTarget(i: nat, b: nat, target: Path)
      requires i < inodes.Length && b < blocks.Length && |target| < |blocks[b]|
      modifies inodes, blocks
      ensures View() == old(View()).(blocks := old(View()).blocks[b := Splice(old(blocks[b]), 0, target + [0])],
                                     inodes := old(View()).inodes[i := old(inodes[i]).(block := b)])
    {
      blocks[b] := Splice(blocks[b], 0, target + [0]);
      inodes[i] := inodes[i].(block := b);
    }

    method SymLink(target: Path, link: Path) returns (ok: bool)
      requires Valid() && NulFree(target) && NulFree(link)
      modifies inodes, inodeTaken, blocks, blockTaken, dir
      ensures (View(), ok) == Tfs.SymLink(old(View()), target, link)
      ensures Valid()
    {
      SymLinkKeeps(View(), target, link);
      if !ValidPath(link) { return false; }
      var t := LookupPath(target);
      if t == -1 { return false; }
      LookupLive(View(), target);
      var l := LookupPath(link);
      if l != -1 { return false; }
      var i := InodeCreate(Link);
      if i == None { return false; }
      var b := DataBlockAlloc();
      if b == None {
        var _ := InodeDelete(i.value);
        return false;
      }
      StoreTarget(i.value, b.value, target);
      ok := AddDirEntry(link[1..], i.value);
      if !ok { var _ := InodeDelete(i.value); }
    }

    method HardLink(target: Path, link: Path) returns (ok: bool)
      requires Valid() && NulFree(link)
      modifies inodes, dir
      ensures (View(), ok) == Tfs.HardLink(old(View()), target, link)
      ensures Valid()
    {
      HardLinkKeeps(View(), target, link);
      if !ValidPath(link) { return false; }
      var i := LookupPath(target);
      if i == -1 { return false; }
      LookupLive(View(), target);
      var l := LookupPath(link);
      if l != -1 { return false; }
      if inodes[i].kind == Link { return false; }
      ok := AddDirEntry(link[1..], i);
      if ok { inodes[i] := inodes[i].(links := inodes[i].links + 1); }
    }

    method Unlink(p: Path) returns (ok: bool)
      requires Valid()
      modifies inodes, inodeTaken, blockTaken, dir
      ensures (View(), ok) == Tfs.Unlink(old(View()), p)
      ensures Valid()
    {
      UnlinkKeeps(View(), p);
      var i := LookupPath(p);
      if i == -1 { return false; }
      LookupLive(View(), p);
      assert ExactAt(View().dir, View().inodeTaken, View().inodes, i);
      if inodes[i].kind != Link {
        var open := IsInOpenFileTable(i);
        if open { return false; }
      }
      ok := ClearDirEntry(p[1..]);
      if !ok { return; }
      if inodes[i].links == 1 {
        ok := InodeDelete(i);
      } else {
        inodes[i] := inodes[i].(links := inodes[i].links - 1);
      }
    }

    method Close(h: int) returns (ok: bool)
      requires Valid()
      modifies handleTaken
      ensures (View(), ok) == Tfs.Close(old(View()), h)
      ensures Valid()
    {
      CloseKeeps(View(), h);
      if !(0 <= h < handles.Length) || !handleTaken[h] { return false; }
      handleTaken[h] := false;
      return true;
    }

    /** The copy into the block and the updates of inode and cursor after it. */
    method StoreBytes(h: nat, i: nat, b: nat, data: seq<byte>)
      requires Shaped() && h < handles.Length && i < inodes.Length && b < blocks.Length
      requires handles[h].offset + |data| <= |blocks[b]|
      modifies inodes, blocks, handles
      ensures View() == Store(old(View()), h, i, b, old(handles[h].offset), data)
    {
      var off := handles[h].offset;
      inodes[i] := inodes[i].(block := b);
      blocks[b] := Splice(blocks[b], off, data);
      handles[h] := handles[h].(offset := off + |data|);
      if off + |data| > inodes[i].size { inodes[i] := inodes[i].(size := off + |data|); }
      assert inodes[..] == old(inodes[..])[i := old(inodes[i]).(block := b, size := Max(old(inodes[i].size),
          off + |data|))];
    }

    method Write(h: int, data: seq<byte>) returns (r: Option<nat>)
      requires Valid()
      modifies inodes, blocks, blockTaken, handles
      ensures (View(), r) == Tfs.Write(old(View()), h, data)
      ensures Valid()
    {
      WriteKeeps(View(), h, data);
      if !(0 <= h < handles.Length) || !handleTaken[h] { return None; }
      assert OpenHandle(View(), h);
      var Handle(i, off) := handles[h];
      var n := |data|;
      if n + off > blockSize { n := blockSize - off; }
      if n > 0 {
        var b := inodes[i].block;
        if inodes[i].size == 0 {
          var got := DataBlockAlloc();
          if got == None { return None; }
          b := got.value;
        } else {
          assert Owns(View(), i) && HoldsBlock(View(), i);
        }
        StoreBytes(h, i, b, data[..n]);
      }
      return Some(n);
    }

    method Read(h: int, len: nat) returns (r: Option<seq<byte>>)
      requires Valid()
      modifies handles
      ensures (View(), r) == Tfs.Read(old(View()), h, len)
      ensures Valid()
    {
      ReadKeeps(View(), h, len);
      if !(0 <= h < handles.Length) || !handleTaken[h] { return None; }
      assert OpenHandle(View(), h);
      var Handle(i, off) := handles[h];
      var n := inodes[i].size - off;
      if n > len { n := len; }
      if n == 0 { return Some([]); }
      assert Owns(View(), i) && HoldsBlock(View(), i);
      r := Some(blocks[inodes[i].block][off..off + n]);
      handles[h] := Handle(i, off + n);
    }
  }
}
