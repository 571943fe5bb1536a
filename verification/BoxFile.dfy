/** The file under a box, updated in place: fs2 reads and writes at a cursor, and the message loops over them. */
module BoxFile {
  import opened Bytes
  import opened Framing

  /** An fs2 inode with its data block, once it has one. */
  class File {
    const block: array<byte>
    var size: nat

    ghost predicate Valid()
      reads this
    {
      size <= block.Length
    }

    ghost function Contents(): (c: seq<byte>)
      requires Valid()
      reads this, block
    {
      block[..size]
    }

    constructor (blockSize: nat)
      ensures Valid() && fresh(block) && block.Length == blockSize && Contents() == []
    {
      block := new byte[blockSize];
      size := 0;
    }
  }

  /** memcpy into a block. */
  method CopyIn(block: array<byte>, off: nat, data: seq<byte>)
    requires off + |data| <= block.Length
    modifies block
    ensures block[..] == Splice(old(block[..]), off, data)
  {
    ghost var before := block[..];
    for i := 0 to |data|
      invariant forall j :: 0 <= j < block.Length ==>
          block[j] == if off <= j < off + i then data[j - off] else before[j]
    {
      block[off + i] := data[i];
    }
  }

  /** An entry of the open-file table. */
  class Handle {
    const file: File
    var offset: nat

    constructor (file: File, append: bool)
      requires file.Valid()
      ensures this.file == file && Valid()
      ensures offset == if append then file.size else 0
    {
      this.file := file;
      offset := if append then file.size else 0;
    }

    /** The cursor bound: neither unsigned subtraction of fs2 wraps. */
    ghost predicate Valid()
      reads this, file
    {
      file.Valid() && offset <= file.size
    }

    method Write(data: seq<byte>, blockFree: bool) returns (ret: int)
      requires Valid()
      modifies this`offset, file`size, file.block
      ensures Valid()
      ensures (file.Contents(), offset, ret)
           == FileWrite(file.block.Length, old(file.Contents()), old(offset), data, blockFree)
    {
      var n := |data|;
      if n + offset > file.block.Length {
        n := file.block.Length - offset;
      }
      SpliceOverwrites(file.block[..], file.size, offset, data[..n]);
      assert file.block[..][..file.size] == file.Contents();
      assert n == 0 ==> Splice(file.block[..], offset, data[..n]) == file.block[..];
      if n > 0 {
        if file.size == 0 && !blockFree {
          return -1;
        }
        CopyIn(file.block, offset, data[..n]);
        offset := offset + n;
        if offset > file.size {
          file.size := offset;
        }
      }
      assert file.block[..][..file.size] == file.Contents();
      return n;
    }

    method ReadByte() returns (b: Option<byte>)
      requires Valid()
      modifies this`offset
      ensures Valid()
      ensures b.None? <==> old(offset) == file.size
      ensures b.None? ==> offset == old(offset)
      ensures b.Some? ==> b.value == file.Contents()[old(offset)] && offset == old(offset) + 1
    {
      if file.size - offset > 0 {
        b := Some(file.block[offset]);
        offset := offset + 1;
      } else {
        b := None;
      }
    }

    method WriteMessage(m: Message, blockFree: bool) returns (ret: int)
      requires Valid()
      modifies this`offset, file`size, file.block
      ensures Valid()
      ensures (file.Contents(), offset, ret)
           == Framing.WriteMessage(file.block.Length, old(file.Contents()), old(offset), m, blockFree)
    {
      ret := Write(m, blockFree);
      if ret != |m| {
        return -1;
      }
      var ret2 := Write([0], blockFree);
      if ret2 == -1 {
        return -1;
      }
    }

    method ReadMessage() returns (buffer: seq<byte>, ok: bool)
      requires Valid()
      modifies this`offset
      ensures Valid()
      ensures (if ok then Some(buffer) else None, offset) == Framing.ReadMessage(file.Contents(), old(offset))
    {
      buffer := [];
      ghost var start, c := offset, file.Contents();
      while true
        invariant Valid() && start <= offset == start + |buffer| && file.Contents() == c
        invariant buffer == c[start..offset] && NulFree(buffer)
        decreases file.size - offset
      {
        var b := ReadByte();
        if b.None? {
          assert c == c[..start] + buffer;
          ReadOne(c[..start], buffer, []);
          return buffer, false;
        }
        if b.value == 0 {
          assert c == c[..start] + buffer + [0] + c[offset..];
          ReadOne(c[..start], buffer, c[offset..]);
          return buffer + [b.value], true;
        }
        buffer := buffer + [b.value];
      }
    }
  }
}
