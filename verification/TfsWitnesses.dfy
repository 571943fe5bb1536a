/** Runs of a new file system on which the two conditions of module TfsInvariant and TfsRuns are needed. */
module TfsWitnesses {
  import opened Bytes
  import opened Directory
  import opened LinkGraph
  import opened Tfs
  import opened TfsInvariant
  import opened TfsRuns

  const NAME_A: Name := [97]
  const NAME_B: Name := [98]
  const PATH_A: Path := [SLASH, 97]
  const PATH_B: Path := [SLASH, 98]
  const BLOCK_SIZE: nat := 2 * DIR_ENTRY_SIZE
  const CREATE := Mode(true, false, false)
  const TRUNCATE := Mode(false, true, false)

  /** Three inodes, three blocks, two directory slots and one handle, in zeroed memory. */
  const MEMORY_INODES: seq<Inode> := [Inode(File, 0, 0, 0), Inode(File, 0, 0, 0), Inode(File, 0, 0, 0)]
  const MEMORY_BLOCKS: seq<seq<byte>> := [Zeros(BLOCK_SIZE), Zeros(BLOCK_SIZE), Zeros(BLOCK_SIZE)]
  const MEMORY_SLOTS: seq<Slot> := [Slot(Zeros(MAX_FILE_NAME), 0), Slot(Zeros(MAX_FILE_NAME), 0)]
  const MEMORY_HANDLES: seq<Handle> := [Handle(0, 0)]

  const FREE_SLOT := Slot(Zeros(MAX_FILE_NAME), -1)
  const ROOT_INODE := Inode(Directory, 1, BLOCK_SIZE, 0)
  const NO_INODE := Inode(File, 0, 0, 0)
  const NEW_FILE := Inode(File, 1, 0, -1)
  const LINK_TO_A: seq<byte> := Splice(Zeros(BLOCK_SIZE), 0, PATH_A + [0])

  const FORMATTED := State(BLOCK_SIZE,
    [ROOT_INODE, NO_INODE, NO_INODE], [true, false, false],
    MEMORY_BLOCKS, [true, false, false],
    [FREE_SLOT, FREE_SLOT],
    MEMORY_HANDLES, [false])

  /** After creating "/a". */
  const OPENED := State(BLOCK_SIZE,
    [ROOT_INODE, NEW_FILE, NO_INODE], [true, true, false],
    MEMORY_BLOCKS, [true, false, false],
    [Slot(Padded(NAME_A), 1), FREE_SLOT],
    [Handle(1, 0)], [true])

  const CLOSED := OPENED.(handleTaken := [false])

  /** After linking "/b" to it. */
  const LINKED := State(BLOCK_SIZE,
    [ROOT_INODE, NEW_FILE, Inode(Link, 1, 0, 1)], [true, true, true],
    [Zeros(BLOCK_SIZE), LINK_TO_A, Zeros(BLOCK_SIZE)], [true, true, false],
    [Slot(Padded(NAME_A), 1), Slot(Padded(NAME_B), 2)],
    [Handle(1, 0)], [false])

  /** After unlinking "/a": "/b" dangles. */
  const DANGLING := LINKED.(
    inodeTaken := [true, false, true],
    dir := [FREE_SLOT, Slot(Padded(NAME_B), 2)])

  lemma FormattedByInit()
    ensures Init(BLOCK_SIZE, MEMORY_INODES, MEMORY_BLOCKS, MEMORY_SLOTS, MEMORY_HANDLES) == Some(FORMATTED)
    ensures Inv(FORMATTED) && Links(FORMATTED) == map[]
  {
    InitInv(BLOCK_SIZE, MEMORY_INODES, MEMORY_BLOCKS, MEMORY_SLOTS, MEMORY_HANDLES);
    var s := Init(BLOCK_SIZE, MEMORY_INODES, MEMORY_BLOCKS, MEMORY_SLOTS, MEMORY_HANDLES).value;
    assert s == FORMATTED;
    NewIsAcyclic(s);
  }

  lemma CreateA()
    ensures Inv(FORMATTED) && Allowed(FORMATTED, OpOpen(PATH_A, CREATE))
    ensures Step(FORMATTED, OpOpen(PATH_A, CREATE)) == (OPENED, Count(0))
    ensures Inv(OPENED)
  {
    FormattedByInit();
    var s, d := FORMATTED, FORMATTED.dir;
    assert PATH_A[1..] == NAME_A;
    assert FindSlot(d, NAME_A, 1) == FindSlot(d, NAME_A, 2) == 2 && Lookup(s, PATH_A) == -1;
    assert FirstFreeFrom(s.inodeTaken, 1) == 1 && FreeSlot(d) == 0 && FirstFree(s.handleTaken) == 0;
    assert Step(s, OpOpen(PATH_A, CREATE)).0 == OPENED;
    StepKeeps(s, OpOpen(PATH_A, CREATE));
  }

  lemma CloseA()
    ensures Inv(OPENED) && Step(OPENED, OpClose(0)) == (CLOSED, Done) && Inv(CLOSED)
  {
    CreateA();
    assert OPENED.handleTaken[0 := false] == CLOSED.handleTaken;
    StepKeeps(OPENED, OpClose(0));
  }

  lemma LinkB()
    ensures Inv(CLOSED) && Step(CLOSED, OpSymLink(PATH_A, PATH_B)) == (LINKED, Done) && Inv(LINKED)
  {
    CloseA();
    var s, d := CLOSED, CLOSED.dir;
    assert PATH_A[1..] == NAME_A && PATH_B[1..] == NAME_B;
    assert Names(d[0], NAME_A) && FindSlot(d, NAME_A) == 0;
    assert FindSlot(d, NAME_B, 1) == FindSlot(d, NAME_B, 2) == 2;
    assert FirstFreeFrom(s.inodeTaken, 1) == FirstFreeFrom(s.inodeTaken, 2) == 2;
    assert FirstFreeFrom(s.blockTaken, 1) == 1 && FreeSlot(d, 1) == 1;
    assert Step(s, OpSymLink(PATH_A, PATH_B)).0 == LINKED;
    StepKeeps(s, OpSymLink(PATH_A, PATH_B));
  }

  lemma UnlinkA()
    ensures Inv(LINKED) && Step(LINKED, OpUnlink(PATH_A)) == (DANGLING, Done) && Inv(DANGLING)
  {
    LinkB();
    var s, d := LINKED, LINKED.dir;
    assert PATH_A[1..] == NAME_A;
    assert Names(d[0], NAME_A) && FindSlot(d, NAME_A) == 0 && MatchSlot(d, NAME_A) == 0;
    assert Step(s, OpUnlink(PATH_A)).0 == DANGLING;
    StepKeeps(s, OpUnlink(PATH_A));
  }

  /** The dangling link resolves, to "/a". */
  lemma DanglingChain()
    ensures Inv(DANGLING) && Acyclic(Links(DANGLING))
    ensures Terminates(Links(DANGLING), PATH_B) && Final(Links(DANGLING), PATH_B) == PATH_A
    ensures Lookup(DANGLING, PATH_B) == 2 && Lookup(DANGLING, PATH_A) == -1
  {
    UnlinkA();
    var d, g := DANGLING.dir, Links(DANGLING);
    assert PATH_A[1..] == NAME_A && PATH_B[1..] == NAME_B;
    assert FindSlot(d, NAME_B, 1) == 1;
    assert FindSlot(d, NAME_A, 1) == FindSlot(d, NAME_A, 2) == 2;
    assert LINK_TO_A == PATH_A + [0] + Zeros(BLOCK_SIZE - 3);
    CStrOfTerminated(PATH_A, Zeros(BLOCK_SIZE - 3));
    LinksDomain(DANGLING, PATH_A);
    LinksDomain(DANGLING, PATH_B);
    assert Ends(g, PATH_A, 0) && Ends(g, PATH_B, 1);
    forall p | p in g ensures Terminates(g, p) {
      LinksDomain(DANGLING, p);
      assert Names(d[FindSlot(d, p[1..])], p[1..]);
      assert p == PATH_B;
    }
    HopsStep(g, PATH_B);
  }

  /** Linking "/a" back to "/b" succeeds and closes the loop. */
  lemma CloseLoop()
    ensures Inv(DANGLING) && Step(DANGLING, OpSymLink(PATH_B, PATH_A)).1 == Done
    ensures Inv(Step(DANGLING, OpSymLink(PATH_B, PATH_A)).0)
    ensures !Acyclic(Links(Step(DANGLING, OpSymLink(PATH_B, PATH_A)).0))
  {
    DanglingChain();
    var s := DANGLING;
    assert FirstFreeFrom(s.inodeTaken, 1) == 1;
    assert FirstFreeFrom(s.blockTaken, 1) == FirstFreeFrom(s.blockTaken, 2) == 2;
    assert FreeSlot(s.dir) == 0 && PATH_A[1..] == NAME_A;
    assert SymLink(s, PATH_B, PATH_A).1;
    StepKeeps(s, OpSymLink(PATH_B, PATH_A));
    StepAcyclic(s, OpSymLink(PATH_B, PATH_A));
  }

  lemma RunCons(s: State, op: Op, rest: seq<Op>)
    requires Inv(s) && Allowed(s, op) && Inv(Step(s, op).0) && AllowedRun(Step(s, op).0, rest)
    ensures AllowedRun(s, [op] + rest)
    ensures Run(s, [op] + rest).0 == Run(Step(s, op).0, rest).0
  {
    assert ([op] + rest)[1..] == rest;
  }

  ghost predicate Goes(s: State, op: Op, t: State) {
    Inv(s) && Allowed(s, op) && Step(s, op).0 == t && Inv(t)
  }

  lemma FourSteps(s: State, t: State, u: State, v: State, w: State, o1: Op, o2: Op, o3: Op, o4: Op, rest: seq<Op>)
    requires Goes(s, o1, t) && Goes(t, o2, u) && Goes(u, o3, v) && Goes(v, o4, w) && AllowedRun(w, rest)
    ensures AllowedRun(s, [o1] + ([o2] + ([o3] + ([o4] + rest))))
    ensures Run(s, [o1] + ([o2] + ([o3] + ([o4] + rest)))).0 == Run(w, rest).0
  {
    RunCons(v, o4, rest);
    RunCons(u, o3, [o4] + rest);
    RunCons(t, o2, [o3] + ([o4] + rest));
    RunCons(s, o1, [o2] + ([o3] + ([o4] + rest)));
  }

  /** The first four calls of the loop. */
  lemma ToDangling() returns (t: State, u: State, v: State, w: State)
    ensures Goes(FORMATTED, OpOpen(PATH_A, CREATE), t) && Goes(t, OpClose(0), u)
    ensures Goes(u, OpSymLink(PATH_A, PATH_B), v) && Goes(v, OpUnlink(PATH_A), w) && w == DANGLING
  {
    t, u, v, w := OPENED, CLOSED, LINKED, DANGLING;
    CreateA();
    CloseA();
    LinkB();
    UnlinkA();
  }

  /** The fifth closes it. */
  lemma ToLoop() returns (t: State, u: State, v: State, w: State, x: State)
    ensures Goes(FORMATTED, OpOpen(PATH_A, CREATE), t) && Goes(t, OpClose(0), u)
    ensures Goes(u, OpSymLink(PATH_A, PATH_B), v) && Goes(v, OpUnlink(PATH_A), w)
    ensures Goes(w, OpSymLink(PATH_B, PATH_A), x) && !Acyclic(Links(x))
  {
    t, u, v, w := ToDangling();
    CloseLoop();
    x := Step(w, OpSymLink(PATH_B, PATH_A)).0;
  }

  /**
   The condition on new links is needed: from a new file system, create "/a", close it, link "/b" to it, unlink
   it and link "/a" to "/b". Every call succeeds and the graph has a loop.
   */
  lemma LoopWitness() returns (s: State, ops: seq<Op>)
    ensures Init(BLOCK_SIZE, MEMORY_INODES, MEMORY_BLOCKS, MEMORY_SLOTS, MEMORY_HANDLES) == Some(s)
    ensures Inv(s) && Acyclic(Links(s)) && AllowedRun(s, ops)
    ensures Inv(Run(s, ops).0) && !Acyclic(Links(Run(s, ops).0))
  {
    s := FORMATTED;
    FormattedByInit();
    var create, close := OpOpen(PATH_A, CREATE), OpClose(0);
    var link, unlink, back := OpSymLink(PATH_A, PATH_B), OpUnlink(PATH_A), OpSymLink(PATH_B, PATH_A);
    var t, u, v, w, x := ToLoop();
    RunCons(w, back, []);
    FourSteps(s, t, u, v, w, create, close, link, unlink, [back] + []);
    ops := [create] + ([close] + ([link] + ([unlink] + ([back] + []))));
  }

  /**
   The condition on truncation is needed: from a new file system, create "/a" and write one byte; then a
   truncating open of "/a" leaves the writer's cursor past the end.
   */
  lemma TruncationWitness() returns (s: State, ops: seq<Op>)
    ensures Init(BLOCK_SIZE, MEMORY_INODES, MEMORY_BLOCKS, MEMORY_SLOTS, MEMORY_HANDLES) == Some(s)
    ensures Inv(s) && AllowedRun(s, ops)
    ensures var t := Run(s, ops).0;
            && Inv(t) && Resolves(Links(t), PATH_A, TRUNCATE)
            && Core(Open(t, PATH_A, TRUNCATE).0) && !CursorInv(Open(t, PATH_A, TRUNCATE).0)
  {
    s := FORMATTED;
    var o1, o2 := OpOpen(PATH_A, CREATE), OpWrite(0, [120]);
    FormattedByInit();
    CreateA();
    WriteA();
    RunCons(OPENED, o2, []);
    ops := [o1] + ([o2] + []);
    RunCons(FORMATTED, o1, [o2] + []);
  }

  lemma WriteA()
    ensures Inv(OPENED)
    ensures var t := Step(OPENED, OpWrite(0, [120])).0;
            && Inv(t) && Resolves(Links(t), PATH_A, TRUNCATE)
            && Core(Open(t, PATH_A, TRUNCATE).0) && !CursorInv(Open(t, PATH_A, TRUNCATE).0)
  {
    CreateA();
    var s := OPENED;
    assert OpenHandle(s, 0) && FirstFreeFrom(s.blockTaken, 1) == 1;
    StepKeeps(s, OpWrite(0, [120]));
    var t := Step(s, OpWrite(0, [120])).0;
    assert t.handles[0] == Handle(1, 1) && OpenHandle(t, 0);
    assert PATH_A[1..] == NAME_A && Names(t.dir[0], NAME_A) && FindSlot(t.dir, NAME_A) == 0;
    assert Lookup(t, PATH_A) == 1 && !IsLink(t, PATH_A);
    LinksDomain(t, PATH_A);
    assert Ends(Links(t), PATH_A, 0);
    OpenKeeps(t, PATH_A, TRUNCATE);
    assert !TruncSafe(t, PATH_A, TRUNCATE);
  }
}
