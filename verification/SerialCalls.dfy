/** Made one after another, the calls of module Tfs are the whole calls that module RootOrder replays. */
module SerialCalls {
  import opened Bytes
  import opened Directory
  import opened LinkGraph
  import opened Tfs
  import opened TfsInvariant
  import opened TfsRuns
  import opened LockProtocol
  import opened RootOrder

  /** The name under which a path is looked up; a path that is not valid is never found. */
  function NameOf(p: Path): Name {
    if ValidPath(p) then p[1..] else []
  }

  const NO_CALL := Commit(ReqClose(0), true, false)

  /** The commit of a call; a call that returns before it takes the root lock has none. */
  ghost function CommitOf(s: State, op: Op): Commit
    requires Core(s)
  {
    match op
    case OpOpen(p, mode) => if ValidPath(p) then Commit(ReqOpen(p[1..], mode.creat), true, false) else NO_CALL
    case OpSymLink(target, l) =>
      if ValidPath(l) then
        Commit(ReqSymLink(NameOf(target), l[1..]), FirstFree(s.blockTaken) < |s.blockTaken|, false)
      else NO_CALL
    case OpLink(target, l) => if ValidPath(l) then Commit(ReqLink(NameOf(target), l[1..]), true, false) else NO_CALL
    case OpUnlink(p) => Commit(ReqUnlink(NameOf(p)), true, IsOpen(s, Lookup(s, p)))
    case _ => NO_CALL
  }

  lemma LookupByName(s: State, p: Path)
    requires Core(s)
    ensures Lookup(s, p) == Find(s.dir, NameOf(p))
  {
    FindIffNamed(s.dir, []);
  }

  /** Changes that keep kind and count of every inode are not seen in the tables. */
  lemma SameCounts(a: seq<Inode>, b: seq<Inode>)
    requires |a| == |b| && forall i :: 0 <= i < |a| ==> a[i].kind == b[i].kind && a[i].links == b[i].links
    ensures Counts(a) == Counts(b)
  {
  }

  lemma OpenNameTables(s: State, p: Path, mode: Mode)
    requires Core(s) && !IsLink(s, p) && ValidPath(p)
    ensures TablesIn(OpenName(s, p, mode).0) == Apply(TablesIn(s), Commit(ReqOpen(p[1..], mode.creat), true, false))
  {
    var i := Lookup(s, p);
    if i != -1 {
      LookupLive(s, p);
      SameCounts(s.inodes, Truncated(s, i, mode).inodes);
    } else if mode.creat && CreateInode(s, File).Some? {
      var j := FirstFree(s.inodeTaken);
      CountsUpdate(s.inodes, j, Inode(File, 1, 0, -1));
      assert s.inodeTaken[j := true][j := false] == s.inodeTaken;
    }
  }

  lemma OpenTables(s: State, p: Path, mode: Mode)
    requires Core(s) && Resolves(Links(s), p, mode)
    ensures TablesIn(Open(s, p, mode).0) == Apply(TablesIn(s), CommitOf(s, OpOpen(p, mode)))
  {
    if IsLink(s, p) {
      if !mode.creat {
        OpenFollowsChain(s, p, mode);
        var q := Final(Links(s), p);
        if ValidPath(q) { OpenNameTables(s, q, mode); }
      } else {
        LookupLive(s, p);
      }
    } else if ValidPath(p) {
      OpenNameTables(s, p, mode);
    }
  }

  lemma SymLinkTables(s: State, target: Path, link: Path)
    requires Core(s)
    ensures TablesIn(SymLink(s, target, link).0) == Apply(TablesIn(s), CommitOf(s, OpSymLink(target, link)))
  {
    LookupByName(s, target);
    if ValidPath(link) && Lookup(s, target) != -1 && Lookup(s, link) == -1 && CreateInode(s, Link).Some? {
      var i := FirstFree(s.inodeTaken);
      CountsUpdate(s.inodes, i, Inode(Link, 1, 0, -1));
      CountsUpdate(s.inodes, i, Inode(Link, 1, 0, FirstFree(s.blockTaken)));
      assert s.inodeTaken[i := true][i := false] == s.inodeTaken;
      LookupLive(s, target);
    }
  }

  lemma HardLinkTables(s: State, target: Path, link: Path)
    requires Core(s)
    ensures TablesIn(HardLink(s, target, link).0) == Apply(TablesIn(s), CommitOf(s, OpLink(target, link)))
  {
    LookupByName(s, target);
    var i := Lookup(s, target);
    if i != -1 {
      LookupLive(s, target);
      CountsUpdate(s.inodes, i, s.inodes[i].(links := s.inodes[i].links + 1));
    }
  }

  lemma UnlinkTables(s: State, p: Path)
    requires Core(s)
    ensures TablesIn(Unlink(s, p).0) == Apply(TablesIn(s), CommitOf(s, OpUnlink(p)))
  {
    LookupByName(s, p);
    var i := Lookup(s, p);
    if i != -1 {
      LookupLive(s, p);
      assert ExactAt(s.dir, s.inodeTaken, s.inodes, i);
      CountsUpdate(s.inodes, i, s.inodes[i].(links := LessOne(s.inodes[i].links)));
    }
  }

  lemma WriteTables(s: State, h: int, data: seq<byte>)
    requires Inv(s)
    ensures TablesIn(Write(s, h, data).0) == TablesIn(s)
  {
    SameCounts(s.inodes, Write(s, h, data).0.inodes);
  }

  /** A call made alone has the effect of its commit on directory, inode vector and link counts. */
  lemma StepTables(s: State, op: Op)
    requires Inv(s) && Allowed(s, op)
    ensures TablesIn(TfsRuns.Step(s, op).0) == Apply(TablesIn(s), CommitOf(s, op))
  {
    match op
    case OpOpen(p, mode) => OpenTables(s, p, mode);
    case OpSymLink(target, l) => SymLinkTables(s, target, l);
    case OpLink(target, l) => HardLinkTables(s, target, l);
    case OpUnlink(p) => UnlinkTables(s, p);
    case OpWrite(h, data) => WriteTables(s, h, data);
    case _ =>
  }

  ghost function CommitsOf(s: State, ops: seq<Op>): seq<Commit>
    requires Inv(s) && AllowedRun(s, ops)
    decreases |ops|
  {
    if ops == [] then []
    else
      StepKeeps(s, ops[0]);
      [CommitOf(s, ops[0])] + CommitsOf(TfsRuns.Step(s, ops[0]).0, ops[1..])
  }

  lemma {:induction false} ReplayFirst(T: Tables, c: Commit, log: seq<Commit>)
    requires |T.counts| == |T.taken|
    ensures Replay(T, [c] + log) == Replay(Apply(T, c), log)
    decreases |log|
  {
    if log == [] {
      assert ([c] + log)[..0] == [];
    } else {
      var front := log[..|log| - 1];
      ReplayFirst(T, c, front);
      assert ([c] + log)[..|log|] == [c] + front;
    }
  }

  /** A sequential run leaves the tables that its commits, replayed in order, leave. */
  lemma {:induction false} RunReplays(s: State, ops: seq<Op>)
    requires Inv(s) && AllowedRun(s, ops)
    ensures TablesIn(TfsRuns.Run(s, ops).0) == Replay(TablesIn(s), CommitsOf(s, ops))
    decreases |ops|
  {
    if ops != [] {
      StepKeeps(s, ops[0]);
      StepTables(s, ops[0]);
      var t := TfsRuns.Step(s, ops[0]).0;
      RunReplays(t, ops[1..]);
      ReplayFirst(TablesIn(s), CommitOf(s, ops[0]), CommitsOf(t, ops[1..]));
    }
  }
}
