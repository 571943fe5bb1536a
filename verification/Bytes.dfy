/** Bytes, NUL-terminated C strings and the splicing of a block. */
module Bytes {
  type byte = x: int | 0 <= x < 256

  const SLASH: byte := 47

  datatype Option<+T> = None | Some(value: T)

  predicate NulFree(s: seq<byte>) {
    forall i :: 0 <= i < |s| ==> s[i] != 0
  }

  function Zeros(n: nat): seq<byte> {
    seq(n, _ => 0)
  }

  /** `strlen`: the position of the first NUL at or after `i`. */
  function StrLen(buf: seq<byte>, i: nat := 0): (k: nat)
    requires i <= |buf|
    ensures i <= k <= |buf|
    ensures forall j :: i <= j < k ==> buf[j] != 0
    ensures k < |buf| ==> buf[k] == 0
    decreases |buf| - i
  {
    if i == |buf| || buf[i] == 0 then i else StrLen(buf, i + 1)
  }

  /** The C string that starts a buffer: everything before its first NUL. */
  function CStr(buf: seq<byte>): (s: seq<byte>)
    ensures NulFree(s)
    ensures |s| <= |buf| && s == buf[..|s|]
    ensures |s| < |buf| ==> buf[|s|] == 0
  {
    buf[..StrLen(buf)]
  }

  /** Storing a string with its terminator and reading the buffer back gives the string. */
  lemma CStrOfTerminated(s: seq<byte>, rest: seq<byte>)
    requires NulFree(s)
    ensures CStr(s + [0] + rest) == s
  {
    var buf := s + [0] + rest;
    assert buf[|s|] == 0;
    forall j | 0 <= j < |s| ensures buf[j] != 0 {
      assert buf[j] == s[j];
    }
    assert StrLen(buf) == |s|;
  }

  /** The bytes that `memcpy(block + off, data, |data|)` leaves in the block. */
  function Splice(block: seq<byte>, off: nat, data: seq<byte>): (r: seq<byte>)
    requires off + |data| <= |block|
    ensures |r| == |block|
  {
    block[..off] + data + block[off + |data|..]
  }

  /** How many of `n` bytes still fit between `off` and the end of the block. */
  function Clip(blockSize: nat, off: nat, n: nat): (r: nat)
    requires off <= blockSize
    ensures r <= n && off + r <= blockSize
    ensures r < n ==> off + r == blockSize
  {
    if n + off > blockSize then blockSize - off else n
  }

  /** Overwriting a byte sequence at `off`, growing it when the data runs past the end. */
  function Overwrite(content: seq<byte>, off: nat, data: seq<byte>): seq<byte>
    requires off <= |content|
  {
    content[..off] + data + (if off + |data| <= |content| then content[off + |data|..] else [])
  }

  function Max(a: nat, b: nat): nat {
    if a < b then b else a
  }

  /** Splicing changes the bytes from the offset on, as many as there are data bytes, and no other. */
  lemma SpliceBytes(block: seq<byte>, off: nat, data: seq<byte>, k: nat)
    requires off + |data| <= |block| && k < |block|
    ensures Splice(block, off, data)[k] == if off <= k < off + |data| then data[k - off] else block[k]
  {
  }

  lemma OverwriteBytes(content: seq<byte>, off: nat, data: seq<byte>, k: nat)
    requires off <= |content| && k < Max(|content|, off + |data|)
    ensures |Overwrite(content, off, data)| == Max(|content|, off + |data|)
    ensures Overwrite(content, off, data)[k] == if off <= k < off + |data| then data[k - off] else content[k]
  {
  }

  /** A splice in the block is an overwrite of the file contents kept in it. */
  lemma SpliceOverwrites(block: seq<byte>, size: nat, off: nat, data: seq<byte>)
    requires off <= size <= |block|
    requires off + |data| <= |block|
    ensures Splice(block, off, data)[..Max(size, off + |data|)] == Overwrite(block[..size], off, data)
  {
    var l := Splice(block, off, data)[..Max(size, off + |data|)];
    var r := Overwrite(block[..size], off, data);
    assert |l| == |r|;
    forall i | 0 <= i < |l| ensures l[i] == r[i] {
    }
  }

  /** First-fit scan of an allocation vector; the length when everything is TAKEN. */
  function FirstFree(taken: seq<bool>): (k: nat)
    ensures k <= |taken|
    ensures forall j :: 0 <= j < k ==> taken[j]
    ensures k < |taken| ==> !taken[k]
  {
    FirstFreeFrom(taken, 0)
  }

  function FirstFreeFrom(taken: seq<bool>, i: nat): (k: nat)
    requires i <= |taken|
    ensures i <= k <= |taken|
    ensures forall j :: i <= j < k ==> taken[j]
    ensures k < |taken| ==> !taken[k]
    decreases |taken| - i
  {
    if i == |taken| || !taken[i] then i else FirstFreeFrom(taken, i + 1)
  }

  /** An injective image has as many elements as its source. */
  lemma {:induction false} ImageSize(owners: set<int>, f: int -> int)
    requires forall i, j :: i in owners && j in owners && i != j ==> f(i) != f(j)
    ensures |set i | i in owners :: f(i)| == |owners|
  {
    if exists i :: i in owners {
      var i :| i in owners;
      var rest := owners - {i};
      ImageSize(rest, f);
      var image := set j | j in rest :: f(j);
      assert (set j | j in owners :: f(j)) == image + {f(i)};
    }
  }
}
