/** Theorems over whole runs of API calls: refinement, block conservation, last-name deletion, link chains. */
module TfsRuns {
  import opened Bytes
  import opened Directory
  import opened LinkGraph
  import opened Tfs
  import opened TfsInvariant
  import opened AbstractFs
  import opened TfsRefinement

  datatype Op =
    | OpOpen(path: Path, mode: Mode)
    | OpClose(handle: int)
    | OpWrite(handle: int, data: seq<byte>)
    | OpRead(handle: int, len: nat)
    | OpSymLink(target: Path, link: Path)
    | OpLink(target: Path, link: Path)
    | OpUnlink(path: Path)

  datatype Result = Failed | Done | Count(n: nat) | Data(bytes: seq<byte>)

  function OfOption(r: Option<nat>): Result {
    if r.Some? then Count(r.value) else Failed
  }

  function OfBool(b: bool): Result {
    if b then Done else Failed
  }

  function OfData(r: Option<seq<byte>>): Result {
    if r.Some? then Data(r.value) else Failed
  }

  /**
   What the code asks of its caller: paths are C strings, an open starts a chain of links that ends, and it
   does not truncate a file under another handle's non-zero cursor.
   */
  ghost predicate Allowed(s: State, op: Op)
    requires Core(s)
  {
    match op
    case OpOpen(p, mode) => NulFree(p) && Resolves(Links(s), p, mode) && OpenSafe(s, p, mode)
    case OpSymLink(t, l) => NulFree(t) && NulFree(l)
    case OpLink(t, l) => NulFree(t) && NulFree(l)
    case OpUnlink(p) => NulFree(p)
    case _ => true
  }

  function Step(s: State, op: Op): (State, Result)
    requires Inv(s) && Allowed(s, op)
  {
    match op
    case OpOpen(p, mode) => var (t, r) := Open(s, p, mode); (t, OfOption(r))
    case OpClose(h) => var (t, ok) := Close(s, h); (t, OfBool(ok))
    case OpWrite(h, data) => var (t, r) := Write(s, h, data); (t, OfOption(r))
    case OpRead(h, len) => var (t, r) := Read(s, h, len); (t, OfData(r))
    case OpSymLink(target, l) => var (t, ok) := SymLink(s, target, l); (t, OfBool(ok))
    case OpLink(target, l) => var (t, ok) := HardLink(s, target, l); (t, OfBool(ok))
    case OpUnlink(p) => var (t, ok) := Unlink(s, p); (t, OfBool(ok))
  }

  /** The abstract file system can take this call. */
  ghost predicate AAllowed(a: AbsFs, blockSize: nat, op: Op) {
    match op
    case OpOpen(p, mode) =>
      && Resolves(LinkGraphOf(a), p, mode) && -1 !in a.nodes
      && (forall n :: n in a.names ==> a.names[n] in a.nodes)
    case OpWrite(h, data) => CursorOk(a, blockSize, h)
    case OpRead(h, len) => CursorOk(a, blockSize, h)
    case _ => true
  }

  ghost function AStep(a: AbsFs, v: Avail, blockSize: nat, op: Op): (AbsFs, Result)
    requires AAllowed(a, blockSize, op)
  {
    match op
    case OpOpen(p, mode) => var (b, r) := AOpen(a, v, p, mode); (b, OfOption(r))
    case OpClose(h) => var (b, ok) := AClose(a, h); (b, OfBool(ok))
    case OpWrite(h, data) => var (b, r) := AWrite(a, v, blockSize, h, data); (b, OfOption(r))
    case OpRead(h, len) => var (b, r) := ARead(a, blockSize, h, len); (b, OfData(r))
    case OpSymLink(target, l) => var (b, ok) := ASymLink(a, v, target, l); (b, OfBool(ok))
    case OpLink(target, l) => var (b, ok) := AHardLink(a, v, target, l); (b, OfBool(ok))
    case OpUnlink(p) => var (b, ok) := AUnlink(a, p); (b, OfBool(ok))
  }

  /** One call keeps the invariant. */
  lemma StepKeeps(s: State, op: Op)
    requires Inv(s) && Allowed(s, op)
    ensures Inv(Step(s, op).0) && Step(s, op).0.blockSize == s.blockSize
  {
    match op
    case OpOpen(p, mode) => OpenKeeps(s, p, mode); OpenBlockSize(s, p, mode);
    case OpClose(h) => CloseKeeps(s, h);
    case OpWrite(h, data) => WriteKeeps(s, h, data);
    case OpRead(h, len) => ReadKeeps(s, h, len);
    case OpSymLink(t, l) => SymLinkKeeps(s, t, l);
    case OpLink(t, l) => HardLinkKeeps(s, t, l);
    case OpUnlink(p) => UnlinkKeeps(s, p);
  }

  lemma {:induction false} OpenBlockSize(s: State, p: Path, mode: Mode)
    requires Core(s) && Resolves(Links(s), p, mode)
    ensures Open(s, p, mode).0.blockSize == s.blockSize
    decreases Depth(Links(s), p, mode)
  {
    if IsLink(s, p) && !mode.creat {
      LinksDomain(s, p);
      HopsStep(Links(s), p);
      OpenBlockSize(s, Target(s, p), mode);
    }
  }

  /** One call on the tables is the call of the abstract file system, with the same result. */
  lemma StepRefines(s: State, op: Op)
    requires Inv(s) && Allowed(s, op)
    ensures AAllowed(Abs(s), s.blockSize, op)
    ensures (Abs(Step(s, op).0), Step(s, op).1) == AStep(Abs(s), AvailOf(s), s.blockSize, op)
  {
    match op
    case OpOpen(p, mode) => OpenRefines(s, p, mode);
    case OpClose(h) => CloseRefines(s, h);
    case OpWrite(h, data) => WriteRefines(s, h, data);
    case OpRead(h, len) => ReadRefines(s, h, len);
    case OpSymLink(t, l) => SymLinkRefines(s, t, l);
    case OpLink(t, l) => HardLinkRefines(s, t, l);
    case OpUnlink(p) => UnlinkRefines(s, p);
  }

  // ---------------------------------------------------------------- runs

  ghost predicate AllowedRun(s: State, ops: seq<Op>)
    requires Inv(s)
    decreases |ops|
  {
    ops == [] || (
      && Allowed(s, ops[0])
      && (StepKeeps(s, ops[0]); AllowedRun(Step(s, ops[0]).0, ops[1..])))
  }

  ghost function Run(s: State, ops: seq<Op>): (State, seq<Result>)
    requires Inv(s) && AllowedRun(s, ops)
    decreases |ops|
  {
    if ops == [] then (s, [])
    else
      StepKeeps(s, ops[0]);
      var (t, r) := Step(s, ops[0]);
      var (u, rs) := Run(t, ops[1..]);
      (u, [r] + rs)
  }

  /** What the tables can still give before each call of a run. */
  ghost function Avails(s: State, ops: seq<Op>): seq<Avail>
    requires Inv(s) && AllowedRun(s, ops)
    decreases |ops|
  {
    if ops == [] then []
    else
      StepKeeps(s, ops[0]);
      [AvailOf(s)] + Avails(Step(s, ops[0]).0, ops[1..])
  }

  /** The run of the abstract file system with these resources at each call has these results and ends in `b`. */
  ghost predicate ARun(a: AbsFs, blockSize: nat, ops: seq<Op>, vs: seq<Avail>, rs: seq<Result>, b: AbsFs)
    decreases |ops|
  {
    if ops == [] then vs == [] && rs == [] && a == b
    else
      && vs != [] && rs != []
      && AAllowed(a, blockSize, ops[0]) && Fresh(a, vs[0])
      && var (c, r) := AStep(a, vs[0], blockSize, ops[0]);
         r == rs[0] && ARun(c, blockSize, ops[1..], vs[1..], rs[1..], b)
  }

  /**
   Data refinement: every run returns what the abstract file system returns, given at each call what the tables
   still have, and ends in its state.
   */
  lemma {:induction false} RunRefines(s: State, ops: seq<Op>)
    requires Inv(s) && AllowedRun(s, ops)
    ensures var (t, rs) := Run(s, ops);
            && Inv(t) && t.blockSize == s.blockSize
            && ARun(Abs(s), s.blockSize, ops, Avails(s, ops), rs, Abs(t))
    decreases |ops|
  {
    if ops != [] {
      StepKeeps(s, ops[0]);
      StepRefines(s, ops[0]);
      assert Fresh(Abs(s), AvailOf(s));
      var (t, r) := Step(s, ops[0]);
      RunRefines(t, ops[1..]);
      var (u, rs) := Run(t, ops[1..]);
      assert ([r] + rs)[1..] == rs;
      assert ([AvailOf(s)] + Avails(t, ops[1..]))[1..] == Avails(t, ops[1..]);
    }
  }

  /** After any run an open handle is on a live regular file that still has a name: no handle outlives its file. */
  lemma HandleLiveness(s: State, ops: seq<Op>, h: int)
    requires Inv(s) && AllowedRun(s, ops)
    ensures var t := Run(s, ops).0;
            OpenHandle(t, h) ==>
              var i := t.handles[h].inum;
              ROOT < i && IsFile(t, i) && Named(t, i) && t.handles[h].offset <= t.inodes[i].size <= t.blockSize
  {
    RunRefines(s, ops);
    var t := Run(s, ops).0;
    if OpenHandle(t, h) { NamedIffLive(t, t.handles[h].inum); }
  }

  // ---------------------------------------------------------------- block conservation

  ghost function TakenBlocks(s: State): set<int> {
    set b | 0 <= b < |s.blockTaken| && s.blockTaken[b]
  }

  ghost function Owners(s: State): set<int> {
    set i | 0 <= i < |s.inodes| && Owns(s, i)
  }

  ghost function OwnedBlocks(s: State): set<int> {
    set i | 0 <= i < |s.inodes| && Owns(s, i) :: s.inodes[i].block
  }

  /** TAKEN blocks that no inode holds any more. */
  ghost function Leaked(s: State): set<int> {
    TakenBlocks(s) - OwnedBlocks(s)
  }

  /** The calls that lose a block: a symbolic link removed, or rolled back when its entry cannot be added. */
  ghost predicate Leaks(s: State, op: Op)
    requires Core(s)
  {
    match op
    case OpUnlink(p) => IsLink(s, p)
    case OpSymLink(t, l) =>
      CanStoreLink(s, t, l) && (|l| > 40 || forall k :: 0 <= k < |s.dir| ==> s.dir[k].inum != -1)
    case _ => false
  }

  lemma OwnedImage(s: State)
    requires BlockInv(s)
    ensures |OwnedBlocks(s)| == |Owners(s)|
  {
    var f := (i: int) => if Owns(s, i) then s.inodes[i].block else -1;
    ImageSize(Owners(s), f);
    var image := set i | i in Owners(s) :: f(i);
    forall b ensures b in OwnedBlocks(s) <==> b in image {
      if b in OwnedBlocks(s) {
        var i :| 0 <= i < |s.inodes| && Owns(s, i) && s.inodes[i].block == b;
        assert i in Owners(s) && f(i) == b;
      }
      if b in image {
        var i :| i in Owners(s) && f(i) == b;
        assert s.inodes[i].block == b;
      }
    }
    assert OwnedBlocks(s) == image;
  }

  /** Ownership is one block per owner, all of them TAKEN. */
  lemma OwnedCount(s: State)
    requires BlockInv(s)
    ensures |OwnedBlocks(s)| == |Owners(s)| && OwnedBlocks(s) <= TakenBlocks(s)
    ensures |TakenBlocks(s)| == |Owners(s)| + |Leaked(s)|
  {
    OwnedImage(s);
    forall b | b in OwnedBlocks(s) ensures b in TakenBlocks(s) {
      var i :| 0 <= i < |s.inodes| && Owns(s, i) && s.inodes[i].block == b;
      assert HoldsBlock(s, i);
    }
    assert TakenBlocks(s) == OwnedBlocks(s) + Leaked(s);
  }

  /** Same owners with the same blocks, same allocation: nothing is lost. */
  lemma LeakSame(s: State, t: State)
    requires t.blockTaken == s.blockTaken
    requires forall i :: Owns(t, i) ==> Owns(s, i)
    requires forall i :: Owns(s, i) ==> Owns(t, i) && t.inodes[i].block == s.inodes[i].block
    ensures Leaked(t) == Leaked(s)
  {
    forall b ensures b in OwnedBlocks(t) <==> b in OwnedBlocks(s) {
      if b in OwnedBlocks(s) {
        var i :| 0 <= i < |s.inodes| && Owns(s, i) && s.inodes[i].block == b;
        assert Owns(t, i);
      }
      if b in OwnedBlocks(t) {
        var i :| 0 <= i < |t.inodes| && Owns(t, i) && t.inodes[i].block == b;
        assert Owns(s, i);
      }
    }
  }

  /** One inode gives up its block `b`, or takes it, or only forgets it. */
  lemma LeakOne(s: State, t: State, i: int, b: int, before: bool, after: bool)
    requires BlockInv(s) && BlockInv(t) && |t.blockTaken| == |s.blockTaken| && 0 <= b < |s.blockTaken|
    requires forall j :: j != i ==> (Owns(t, j) <==> Owns(s, j))
    requires forall j :: j != i && Owns(s, j) ==> t.inodes[j].block == s.inodes[j].block != b
    requires t.blockTaken == s.blockTaken[b := t.blockTaken[b]]
    requires Owns(s, i) <==> before
    requires Owns(t, i) <==> after
    requires before ==> s.inodes[i].block == b
    requires after ==> t.inodes[i].block == b
    ensures b in OwnedBlocks(s) <==> before
    ensures b in OwnedBlocks(t) <==> after
    ensures Leaked(t) - {b} == Leaked(s) - {b}
  {
    forall c | c != b ensures c in OwnedBlocks(t) <==> c in OwnedBlocks(s) {
      if c in OwnedBlocks(s) {
        var j :| 0 <= j < |s.inodes| && Owns(s, j) && s.inodes[j].block == c;
        assert Owns(t, j);
      }
      if c in OwnedBlocks(t) {
        var j :| 0 <= j < |t.inodes| && Owns(t, j) && t.inodes[j].block == c;
        assert Owns(s, j);
      }
    }
  }

  lemma LeakTruncated(s: State, i: nat, mode: Mode)
    requires Core(s) && ROOT < i && IsFile(s, i)
    ensures Leaked(Truncated(s, i, mode)) == Leaked(s)
  {
    var t := Truncated(s, i, mode);
    if t != s {
      TruncatedKeeps(s, i, mode);
      assert HoldsBlock(s, i);
      LeakOne(s, t, i, s.inodes[i].block, true, false);
    }
  }

  lemma {:induction false} LeakOpen(s: State, p: Path, mode: Mode)
    requires Core(s) && NulFree(p) && Resolves(Links(s), p, mode)
    ensures Leaked(Open(s, p, mode).0) == Leaked(s)
    decreases Depth(Links(s), p, mode)
  {
    var t := Open(s, p, mode).0;
    if IsLink(s, p) {
      if !mode.creat {
        LinksDomain(s, p);
        HopsStep(Links(s), p);
        LeakOpen(s, Target(s, p), mode);
      }
    } else if Lookup(s, p) != -1 {
      LookupAbs(s, p);
      LeakTruncated(s, Lookup(s, p), mode);
      LeakRegister(Truncated(s, Lookup(s, p), mode), t);
    } else if ValidPath(p) && mode.creat && CreateInode(s, File).Some? {
      LeakCreate(s, p, mode);
    }
  }

  lemma LeakRegister(s: State, t: State)
    requires t.inodes == s.inodes && t.inodeTaken == s.inodeTaken && t.blockTaken == s.blockTaken
    ensures Leaked(t) == Leaked(s)
  {
    LeakSame(s, t);
  }

  lemma LeakCreate(s: State, p: Path, mode: Mode)
    requires Core(s) && NulFree(p) && ValidPath(p) && Lookup(s, p) == -1 && mode.creat && CreateInode(s, File).Some?
    ensures Leaked(OpenName(s, p, mode).0) == Leaked(s)
  {
    var (s1, j) := CreateInode(s, File).value;
    assert DeleteInode(s1, j).inodeTaken == s.inodeTaken;
    LeakSame(s, OpenName(s, p, mode).0);
  }

  lemma LeakNewLink(s: State, t: State, i: nat, b: nat, ok: bool)
    requires |s.inodes| == |s.inodeTaken| && i < |s.inodes| && |s.blocks| == |s.blockTaken| && b < |s.blocks|
    requires BlockInv(s) && TargetInv(s) && !s.blockTaken[b] && !s.inodeTaken[i]
    requires t.inodes == s.inodes[i := Inode(Link, 1, 0, b)] && t.blockSize == s.blockSize
    requires t.inodeTaken == if ok then s.inodeTaken[i := true] else s.inodeTaken
    requires |t.blocks| == |s.blocks| && t.blockTaken == s.blockTaken[b := true]
    requires forall c :: 0 <= c < |s.blocks| && c != b ==> t.blocks[c] == s.blocks[c]
    requires ValidPath(CStr(t.blocks[b])) && |CStr(t.blocks[b])| < t.blockSize
    ensures Leaked(t) == (if ok then Leaked(s) else Leaked(s) + {b}) && b !in Leaked(s)
  {
    SymLinkBlocks(s, t, i, b);
    LeakOne(s, t, i, b, false, ok) by { assert forall j :: Owns(s, j) ==> HoldsBlock(s, j); }
  }

  lemma LeakStoredLink(s: State, target: Path, link: Path)
    requires Inv(s) && CanStoreLink(s, target, link)
    ensures var (t, ok) := SymLink(s, target, link); var b := FirstFree(s.blockTaken);
            && Leaked(t) == (if ok then Leaked(s) else Leaked(s) + {b})
            && b !in Leaked(s)
            && (ok <==> Add(s.dir, link[1..], FirstFree(s.inodeTaken)).Some?)
  {
    var (t, ok) := SymLink(s, target, link);
    var i, b := FirstFree(s.inodeTaken), FirstFree(s.blockTaken);
    SymLinkStored(s, target, link);
    LeakNewLink(s, t, i, b, ok);
  }

  lemma LeakSymLink(s: State, target: Path, link: Path)
    requires Inv(s) && NulFree(target) && NulFree(link)
    ensures var t := SymLink(s, target, link).0; var b := FirstFree(s.blockTaken);
            if Leaks(s, OpSymLink(target, link)) then Leaked(t) == Leaked(s) + {b} && b !in Leaked(s)
            else Leaked(t) == Leaked(s)
  {
    if CanStoreLink(s, target, link) {
      LeakStoredLink(s, target, link);
    } else {
      var t := SymLink(s, target, link).0;
      if t != s { assert t.inodeTaken == s.inodeTaken; }
      LeakSame(s, t);
    }
  }

  lemma LeakHardLink(s: State, target: Path, link: Path)
    requires Inv(s)
    ensures Leaked(HardLink(s, target, link).0) == Leaked(s)
  {
    if HardLink(s, target, link).1 { LookupLive(s, target); }
    LeakSame(s, HardLink(s, target, link).0);
  }

  lemma LeakRead(s: State, h: int, len: nat)
    requires Inv(s)
    ensures Leaked(Read(s, h, len).0) == Leaked(s)
  {
    LeakSame(s, Read(s, h, len).0);
  }

  /** Which block an unlink gives back: that of a file's last name, never that of a symbolic link. */
  lemma UnlinkBlocks(s: State, p: Path)
    requires Inv(s)
    ensures var (t, ok) := Unlink(s, p); var i := Lookup(s, p);
            && BlockInv(t)
            && (forall j :: Owns(t, j) <==> Owns(s, j) && !(ok && j == i && s.inodes[i].links == 1))
            && (forall j :: Owns(t, j) ==> t.inodes[j].block == s.inodes[j].block)
            && (ok && Owns(s, i) && s.inodes[i].links == 1 && s.inodes[i].kind == File ==>
                 HoldsBlock(s, i) && t.blockTaken == s.blockTaken[s.inodes[i].block := false])
            && (!(ok && Owns(s, i) && s.inodes[i].links == 1 && s.inodes[i].kind == File) ==>
                t.blockTaken == s.blockTaken)
    ensures IsLink(s, p) ==> Unlink(s, p).1 && Owns(s, Lookup(s, p)) && s.inodes[Lookup(s, p)].links == 1
  {
    UnlinkKeeps(s, p);
    var i := Lookup(s, p);
    if i != -1 {
      LookupLive(s, p);
      ClearEffect(s.dir, p[1..]);
      if Owns(s, i) { assert HoldsBlock(s, i); }
    }
  }

  lemma LeakUnlink(s: State, p: Path)
    requires Inv(s)
    ensures var t := Unlink(s, p).0;
            if IsLink(s, p)
            then var b := s.inodes[Lookup(s, p)].block; Leaked(t) == Leaked(s) + {b} && b !in Leaked(s)
            else Leaked(t) == Leaked(s)
  {
    UnlinkBlocks(s, p);
    var (t, ok) := Unlink(s, p);
    var i := Lookup(s, p);
    if ok && Owns(s, i) && s.inodes[i].links == 1 {
      assert HoldsBlock(s, i);
      assert IsLink(s, p) <==> s.inodes[i].kind == Link;
      if s.inodes[i].kind == Link { assert s.blockTaken == s.blockTaken[s.inodes[i].block := true]; }
      LeakOne(s, t, i, s.inodes[i].block, true, false);
    } else {
      LeakSame(s, t);
    }
  }

  lemma LeakWrite(s: State, h: int, data: seq<byte>)
    requires Inv(s)
    ensures Leaked(Write(s, h, data).0) == Leaked(s)
  {
    var (t, r) := Write(s, h, data);
    if OpenHandle(s, h) && r.Some? && r.value > 0 {
      WriteEffect(s, h, data);
      WriteKeeps(s, h, data);
      var i, b := s.handles[h].inum, WriteBlock(s, h);
      if Owns(s, i) { assert HoldsBlock(s, i); }
      LeakOne(s, t, i, b, Owns(s, i), true);
    } else {
      LeakSame(s, t);
    }
  }

  /** A call adds one lost block when it leaks and changes nothing otherwise; lost blocks stay lost. */
  lemma StepLeaks(s: State, op: Op)
    requires Inv(s) && Allowed(s, op)
    ensures Leaked(s) <= Leaked(Step(s, op).0)
    ensures |Leaked(Step(s, op).0)| == |Leaked(s)| + (if Leaks(s, op) then 1 else 0)
  {
    match op
    case OpOpen(p, mode) => LeakOpen(s, p, mode);
    case OpClose(h) => LeakSame(s, Close(s, h).0);
    case OpWrite(h, data) => LeakWrite(s, h, data);
    case OpRead(h, len) => LeakRead(s, h, len);
    case OpSymLink(t, l) => LeakSymLink(s, t, l);
    case OpLink(t, l) => LeakHardLink(s, t, l);
    case OpUnlink(p) => LeakUnlink(s, p);
  }

  ghost function LeakCount(s: State, ops: seq<Op>): nat
    requires Inv(s) && AllowedRun(s, ops)
    decreases |ops|
  {
    if ops == [] then 0
    else
      StepKeeps(s, ops[0]);
      (if Leaks(s, ops[0]) then 1 else 0) + LeakCount(Step(s, ops[0]).0, ops[1..])
  }

  /**
   Exact conservation: after any run the TAKEN blocks are one per owner, plus the blocks lost before, plus
   exactly one per leaking call of the run.
   */
  lemma {:induction false} Conservation(s: State, ops: seq<Op>)
    requires Inv(s) && AllowedRun(s, ops)
    ensures var t := Run(s, ops).0;
            && Inv(t)
            && |TakenBlocks(t)| == |Owners(t)| + |Leaked(s)| + LeakCount(s, ops)
    decreases |ops|
  {
    if ops == [] {
      OwnedCount(s);
    } else {
      StepKeeps(s, ops[0]);
      StepLeaks(s, ops[0]);
      Conservation(Step(s, ops[0]).0, ops[1..]);
    }
  }

  // ---------------------------------------------------------------- last-name deletion

  ghost predicate OnlyNames(ops: seq<Op>) {
    forall k :: 0 <= k < |ops| ==> ops[k].OpLink? || ops[k].OpUnlink?
  }

  ghost predicate Named(s: State, i: int) {
    exists n :: n in NameMap(s.dir) && NameMap(s.dir)[n] == i
  }

  lemma NamedIffLive(s: State, i: int)
    requires Core(s) && ROOT < i < |s.inodes|
    ensures Named(s, i) <==> Live(s, i)
  {
    assert ExactAt(s.dir, s.inodeTaken, s.inodes, i);
    if n :| n in NameMap(s.dir) && NameMap(s.dir)[n] == i {
      FindIffNamed(s.dir, n);
      assert FindSlot(s.dir, n) in Refs(s.dir, i);
    } else if Live(s, i) {
      var k :| k in Refs(s.dir, i);
      FindUnique(s.dir, k);
      FindIffNamed(s.dir, CStr(s.dir[k].name));
      assert false;
    }
  }

  /** A link or unlink moves no bytes and takes no block; it frees a block only with the inode that held it. */
  lemma NameStep(s: State, op: Op, i: int)
    requires Inv(s) && Allowed(s, op) && (op.OpLink? || op.OpUnlink?) && ROOT < i < |s.inodes|
    ensures var t := Step(s, op).0;
            && |t.inodes| == |s.inodes| && t.blocks == s.blocks && |t.blockTaken| == |s.blockTaken|
            && (forall b :: 0 <= b < |s.blockTaken| && t.blockTaken[b] ==> s.blockTaken[b])
            && (!Live(s, i) ==> !Live(t, i))
            && (Live(s, i) && Live(t, i) ==> t.inodes[i] == s.inodes[i].(links := t.inodes[i].links))
            && (IsFile(s, i) && s.inodes[i].size > 0 && !Live(t, i) ==>
                  HoldsBlock(s, i) && !t.blockTaken[s.inodes[i].block])
  {
    match op
    case OpLink(target, l) =>
      if HardLink(s, target, l).1 { LookupLive(s, target); }
    case OpUnlink(p) =>
      if Lookup(s, p) != -1 {
        LookupLive(s, p);
        if Owns(s, i) { assert HoldsBlock(s, i); }
      }
  }

  /**
   Over any sequence of links and unlinks a file stays, with the same bytes, exactly as long as it has a name;
   once it has none its inode and its block are FREE.
   */
  lemma {:induction false} LastNameDeletion(s: State, ops: seq<Op>, i: int)
    requires Inv(s) && AllowedRun(s, ops) && OnlyNames(ops) && ROOT < i && IsFile(s, i)
    ensures var t := Run(s, ops).0;
            && Inv(t) && |t.blockTaken| == |s.blockTaken|
            && (Named(t, i) <==> Live(t, i))
            && (Live(t, i) ==> NodeOf(t, i) == NodeOf(s, i))
            && (!Live(t, i) && s.inodes[i].size > 0 ==> HoldsBlock(s, i) && !t.blockTaken[s.inodes[i].block])
    decreases |ops|
  {
    NamedIffLive(s, i);
    if ops != [] {
      StepKeeps(s, ops[0]);
      NameStep(s, ops[0], i);
      var t := Step(s, ops[0]).0;
      if Live(t, i) {
        LastNameDeletion(t, ops[1..], i);
        if s.inodes[i].size > 0 { assert HoldsBlock(t, i); }
      } else {
        StaysFree(t, ops[1..], i, s.inodes[i].block);
      }
    }
  }

  lemma {:induction false} StaysFree(s: State, ops: seq<Op>, i: int, b: int)
    requires Inv(s) && AllowedRun(s, ops) && OnlyNames(ops) && ROOT < i < |s.inodes| && !Live(s, i)
    ensures var t := Run(s, ops).0;
            && Inv(t) && |t.blockTaken| == |s.blockTaken| && !Live(t, i) && !Named(t, i)
            && (0 <= b < |s.blockTaken| && !s.blockTaken[b] ==> !t.blockTaken[b])
    decreases |ops|
  {
    NamedIffLive(s, i);
    if ops != [] {
      StepKeeps(s, ops[0]);
      NameStep(s, ops[0], i);
      StaysFree(Step(s, ops[0]).0, ops[1..], i, b);
    }
  }

  // ---------------------------------------------------------------- chains of symbolic links

  lemma AnyPathEnds(g: Graph, p: Path)
    requires Acyclic(g)
    ensures Terminates(g, p)
  {
    if p !in g { assert Ends(g, p, 0); }
  }

  /** Names refer to nodes, and the next free node is not one of them. */
  ghost predicate Closed(a: AbsFs, v: Avail) {
    && -1 !in a.nodes
    && (forall n :: n in a.names ==> a.names[n] in a.nodes)
    && Fresh(a, v)
  }

  lemma AbsClosed(s: State)
    requires Core(s)
    ensures Closed(Abs(s), AvailOf(s))
  {
    forall n | n in Abs(s).names ensures Abs(s).names[n] in Abs(s).nodes {
      NameLive(s, n);
    }
  }

  /** A new symbolic link adds one edge. */
  lemma AGraphSymLink(a: AbsFs, v: Avail, target: Path, link: Path)
    requires Closed(a, v) && ASymLink(a, v, target, link).1
    ensures link !in LinkGraphOf(a) && target != link
    ensures LinkGraphOf(ASymLink(a, v, target, link).0) == LinkGraphOf(a)[link := target]
  {
    var b := ASymLink(a, v, target, link).0;
    forall p ensures LinkAt(b, p) <==> LinkAt(a, p) || p == link {
      if ValidPath(p) && p[1..] == link[1..] { assert p == [SLASH] + p[1..] == link; }
    }
    forall p ensures p in LinkGraphOf(b) <==> p in LinkGraphOf(a) || p == link {
      LinkGraphDomain(a, p);
      LinkGraphDomain(b, p);
    }
    LinkGraphDomain(a, link);
  }

  /** Every other call only removes edges. */
  lemma AGraphShrinks(a: AbsFs, v: Avail, blockSize: nat, op: Op)
    requires Closed(a, v) && AAllowed(a, blockSize, op) && !op.OpSymLink?
    ensures var g, g' := LinkGraphOf(a), LinkGraphOf(AStep(a, v, blockSize, op).0);
            g' == g - (g.Keys - g'.Keys)
  {
    var b := AStep(a, v, blockSize, op).0;
    forall p | LinkAt(b, p)
      ensures LinkAt(a, p) && NodeAt(a, p) == NodeAt(b, p) && a.nodes[NodeAt(a, p)] == b.nodes[NodeAt(a, p)]
    {
      match op
      case OpOpen(q, mode) => AOpenKeepsLinks(a, v, q, mode, p);
      case _ =>
    }
    forall p | p in LinkGraphOf(b) ensures p in LinkGraphOf(a) && LinkGraphOf(a)[p] == LinkGraphOf(b)[p] {
      LinkGraphDomain(a, p);
    }
  }

  lemma AOpenKeepsLinks(a: AbsFs, v: Avail, q: Path, mode: Mode, p: Path)
    requires Closed(a, v) && Resolves(LinkGraphOf(a), q, mode)
    ensures var b := AOpen(a, v, q, mode).0;
            LinkAt(b, p) ==>
              LinkAt(a, p) && NodeAt(a, p) == NodeAt(b, p) && a.nodes[NodeAt(a, p)] == b.nodes[NodeAt(a, p)]
  {
    if !mode.creat {
      LinkGraphDomain(a, Final(LinkGraphOf(a), q));
      AOpenNameKeepsLinks(a, v, Final(LinkGraphOf(a), q), mode, p);
    } else if !LinkAt(a, q) {
      AOpenNameKeepsLinks(a, v, q, mode, p);
    }
  }

  lemma AOpenNameKeepsLinks(a: AbsFs, v: Avail, q: Path, mode: Mode, p: Path)
    requires Closed(a, v) && !LinkAt(a, q)
    ensures var b := AOpenName(a, v, q, mode).0;
            LinkAt(b, p) ==>
              LinkAt(a, p) && NodeAt(a, p) == NodeAt(b, p) && a.nodes[NodeAt(a, p)] == b.nodes[NodeAt(a, p)]
  {
  }

  lemma GraphSymLink(s: State, target: Path, link: Path)
    requires Inv(s) && NulFree(target) && NulFree(link) && SymLink(s, target, link).1
    ensures Core(SymLink(s, target, link).0)
    ensures link !in Links(s) && target != link
    ensures Links(SymLink(s, target, link).0) == Links(s)[link := target]
  {
    SymLinkKeeps(s, target, link);
    SymLinkRefines(s, target, link);
    GraphAbs(s);
    GraphAbs(SymLink(s, target, link).0);
    AbsClosed(s);
    AGraphSymLink(Abs(s), AvailOf(s), target, link);
  }

  /** A new symbolic link keeps all chains finite if and only if its target's chain does not end at its own path. */
  lemma SymLinkAcyclicIff(s: State, target: Path, link: Path)
    requires Inv(s) && NulFree(target) && NulFree(link) && SymLink(s, target, link).1
    requires Acyclic(Links(s))
    ensures Core(SymLink(s, target, link).0) && Terminates(Links(s), target)
    ensures Acyclic(Links(SymLink(s, target, link).0)) <==> Final(Links(s), target) != link
  {
    AnyPathEnds(Links(s), target);
    GraphSymLink(s, target, link);
    AcyclicIff(Links(s), link, target);
  }

  /** In particular it does when no live link already stores the new path. */
  lemma {:induction false} UntargetedIsSafe(g: Graph, target: Path, link: Path)
    requires Terminates(g, target) && target != link && forall p :: p in g ==> g[p] != link
    ensures Final(g, target) != link
    decreases Hops(g, target)
  {
    if target in g {
      HopsStep(g, target);
      UntargetedIsSafe(g, g[target], link);
    }
  }

  /** If the call creates a symbolic link, its target's chain does not end at the new path. */
  ghost predicate SafeLink(s: State, op: Op)
    requires Inv(s) && Allowed(s, op)
  {
    op.OpSymLink? && Step(s, op).1.Done? && Terminates(Links(s), op.target) ==> Final(Links(s), op.target) != op.link
  }

  ghost predicate SafeLinks(s: State, ops: seq<Op>)
    requires Inv(s) && AllowedRun(s, ops)
    decreases |ops|
  {
    ops == [] || (
      && SafeLink(s, ops[0])
      && (StepKeeps(s, ops[0]); SafeLinks(Step(s, ops[0]).0, ops[1..])))
  }

  lemma StepAcyclic(s: State, op: Op)
    requires Inv(s) && Allowed(s, op) && Acyclic(Links(s))
    ensures Core(Step(s, op).0)
    ensures Acyclic(Links(Step(s, op).0)) <==> SafeLink(s, op)
  {
    StepKeeps(s, op);
    StepRefines(s, op);
    GraphAbs(s);
    GraphAbs(Step(s, op).0);
    if op.OpSymLink? {
      if SymLink(s, op.target, op.link).1 { SymLinkAcyclicIff(s, op.target, op.link); }
    } else {
      AbsClosed(s);
      AGraphShrinks(Abs(s), AvailOf(s), s.blockSize, op);
      AcyclicSubgraph(Links(s), Links(s).Keys - Links(Step(s, op).0).Keys);
    }
  }

  ghost predicate AlwaysAcyclic(s: State, ops: seq<Op>)
    requires Inv(s) && AllowedRun(s, ops)
    decreases |ops|
  {
    Acyclic(Links(s)) && (ops == [] || (StepKeeps(s, ops[0]); AlwaysAcyclic(Step(s, ops[0]).0, ops[1..])))
  }

  /** Chains are finite throughout a run if and only if every symbolic link it creates meets the condition. */
  lemma {:induction false} AcyclicRunIff(s: State, ops: seq<Op>)
    requires Inv(s) && AllowedRun(s, ops) && Acyclic(Links(s))
    ensures AlwaysAcyclic(s, ops) <==> SafeLinks(s, ops)
    decreases |ops|
  {
    if ops != [] {
      StepKeeps(s, ops[0]);
      StepAcyclic(s, ops[0]);
      var t := Step(s, ops[0]).0;
      if SafeLink(s, ops[0]) { AcyclicRunIff(t, ops[1..]); }
    }
  }

  // ---------------------------------------------------------------- symbolic link resolution

  /**
   What a caller sees to before a call: paths are C strings, no file is truncated under another handle's non-zero
   cursor, and a new symbolic link does not take a path that a live link already stores. Nothing is said of chains.
   */
  ghost predicate CallerOk(s: State, op: Op)
    requires Core(s)
  {
    match op
    case OpOpen(p, mode) => NulFree(p) && (Resolves(Links(s), p, mode) ==> OpenSafe(s, p, mode))
    case OpSymLink(t, l) => NulFree(t) && NulFree(l) && forall q :: q in Links(s) ==> Links(s)[q] != l
    case _ => Allowed(s, op)
  }

  /** The caller does so before each call, as long as the calls before it have returned. */
  ghost predicate CallerRun(s: State, ops: seq<Op>)
    requires Inv(s)
    decreases |ops|
  {
    ops == [] || (
      && CallerOk(s, ops[0])
      && (Allowed(s, ops[0]) ==> (StepKeeps(s, ops[0]); CallerRun(Step(s, ops[0]).0, ops[1..]))))
  }

  lemma CallerStep(s: State, op: Op)
    requires Inv(s) && Acyclic(Links(s)) && CallerOk(s, op)
    ensures Allowed(s, op) && SafeLink(s, op)
  {
    match op
    case OpOpen(p, mode) => AnyPathEnds(Links(s), p);
    case OpSymLink(t, l) =>
      if SymLink(s, t, l).1 {
        AnyPathEnds(Links(s), t);
        GraphSymLink(s, t, l);
        UntargetedIsSafe(Links(s), t, l);
      }
    case _ =>
  }

  /** With such a caller every open of the run ends. */
  lemma {:induction false} CallerRunAllowed(s: State, ops: seq<Op>)
    requires Inv(s) && Acyclic(Links(s)) && CallerRun(s, ops)
    ensures AllowedRun(s, ops) && SafeLinks(s, ops)
    decreases |ops|
  {
    if ops != [] {
      CallerStep(s, ops[0]);
      StepKeeps(s, ops[0]);
      StepAcyclic(s, ops[0]);
      CallerRunAllowed(Step(s, ops[0]).0, ops[1..]);
    }
  }

  lemma {:induction false} AlwaysAcyclicEnd(s: State, ops: seq<Op>)
    requires Inv(s) && AllowedRun(s, ops) && AlwaysAcyclic(s, ops)
    ensures Inv(Run(s, ops).0) && Acyclic(Links(Run(s, ops).0))
    decreases |ops|
  {
    if ops != [] {
      StepKeeps(s, ops[0]);
      AlwaysAcyclicEnd(Step(s, ops[0]).0, ops[1..]);
    }
  }

  /**
   Symbolic link resolution: on runs that never create a link at a path a live link already stores, every open
   ends, the graph is acyclic throughout, and at the end any path resolves within the number of live links.
   */
  lemma RunAcyclic(s: State, ops: seq<Op>, p: Path)
    requires Inv(s) && Acyclic(Links(s)) && CallerRun(s, ops)
    ensures AllowedRun(s, ops) && AlwaysAcyclic(s, ops)
    ensures var t := Run(s, ops).0; Inv(t) && Terminates(Links(t), p) && Hops(Links(t), p) <= |Links(t)|
  {
    CallerRunAllowed(s, ops);
    AcyclicRunIff(s, ops);
    AlwaysAcyclicEnd(s, ops);
    var g := Links(Run(s, ops).0);
    AnyPathEnds(g, p);
    BoundedHops(g, p);
  }

  /** A file system without symbolic links, such as a new one, starts acyclic. */
  lemma NewIsAcyclic(s: State)
    requires Core(s) && NameMap(s.dir) == map[]
    ensures Links(s) == map[] && Acyclic(Links(s))
  {
    forall p ensures p !in Links(s) {
      LinksDomain(s, p);
      if IsLink(s, p) { FindIffNamed(s.dir, p[1..]); }
    }
  }
}
