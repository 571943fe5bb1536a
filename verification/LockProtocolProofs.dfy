/** In every interleaving: no deadlock, no lock outlives its call, and link counts are exact under the root lock. */
module LockProtocolProofs {
  import opened Bytes
  import opened Directory
  import opened LockOrder
  import opened Tfs
  import opened LockProtocol

  // ---------------------------------------------------------------- what the holder of the root lock knows

  /** Link counts are exact everywhere but at one inode. */
  ghost predicate ExactBut(sh: Shared, i: nat) {
    && |sh.taken| == |sh.inodes| && ROOT < i < |sh.taken| && sh.taken[i]
    && DirInv(sh.dir)
    && InRange(sh.dir, |sh.taken|)
    && (forall j :: ROOT < j < |sh.taken| && j != i ==> ExactAt(sh.dir, sh.taken, sh.inodes, j))
  }

  ghost predicate Exact(sh: Shared) {
    LinksExact(sh.dir, sh.taken, sh.inodes)
  }

  /** What holds of the directory and the inode table when an access is made under the root lock. */
  ghost predicate RootData(sh: Shared, op: TableAccess) {
    match op
    case TakeInode(n, _) => Exact(sh) && Find(sh.dir, n) == -1
    case InitInode(n, _, i) => ExactBut(sh, i) && LinkCount(sh.dir, i) == 0 && Find(sh.dir, n) == -1
    case LinkBlock(n, i) =>
      ExactBut(sh, i) && LinkCount(sh.dir, i) == 0 && sh.inodes[i].links == 1 && Find(sh.dir, n) == -1
    case AddEntry(n, _, i) =>
      ExactBut(sh, i) && LinkCount(sh.dir, i) == 0 && sh.inodes[i].links == 1 && Find(sh.dir, n) == -1
    case UndoInode(i) => ExactBut(sh, i) && LinkCount(sh.dir, i) == 0
    case UndoFree(i) => ExactBut(sh, i) && LinkCount(sh.dir, i) == 0
    case HardEntry(n, i) => Exact(sh) && Find(sh.dir, n) == -1 && i < |sh.taken| && sh.taken[i]
    case HardCount(i) => ExactBut(sh, i) && LinkCount(sh.dir, i) == sh.inodes[i].links + 1
    case UnlinkOpen(n, i) => Exact(sh) && n != [] && Find(sh.dir, n) == i
    case UnlinkClear(n, i) => Exact(sh) && n != [] && Find(sh.dir, n) == i
    case UnlinkCount(i) => ExactBut(sh, i) && sh.inodes[i].links == LinkCount(sh.dir, i) + 1
    case UnlinkDelete(i) => ExactBut(sh, i) && LinkCount(sh.dir, i) == 0
    case UnlinkFree(i) => ExactBut(sh, i) && LinkCount(sh.dir, i) == 0
    case _ => Exact(sh)
  }

  /** The same along a script: what its next access relies on, or exact counts before the root lock is released. */
  ghost predicate RootCode(sh: Shared, k: Script) {
    match k
    case Acquire(_, _, next) => RootCode(sh, next)
    case Release(l, next) => if l == ROOT_LOCK then Exact(sh) else RootCode(sh, next)
    case Do(op) => RootData(sh, op)
    case Return => Exact(sh)
  }

  predicate IsLookup(k: Script) {
    k.Do? && (k.op.OpenLookup? || k.op.SymLookup? || k.op.HardLookup? || k.op.UnlinkLookup?)
  }

  /** A script takes locks in rising rank, makes each access under its locks, and returns with none. */
  ghost predicate InOrder(st: Stack, k: Script)
    decreases k
  {
    match k
    case Acquire(l, a, next) =>
      && (st.Push? ==> st.lock.level < l.level) && l.level <= FREE_BLOCKS.level
      && (l == ROOT_LOCK ==> a == Writer && IsLookup(next))
      && InOrder(Push(l, a, st), next)
    case Release(l, next) => st.Push? && st.lock == l && InOrder(st.below, next)
    case Do(op) => st == Locks(op)
    case Return => st == Empty
  }

  ghost predicate Sorted(st: Stack) {
    st.Push? ==>
      && (st.below.Push? ==> st.below.lock.level < st.lock.level)
      && (st.lock == ROOT_LOCK ==> st.access == Writer)
      && Sorted(st.below)
  }

  predicate HoldsRoot(th: Thread) {
    ROOT_LOCK in HeldMap(th.held)
  }

  ghost predicate ThreadInv(sh: Shared, th: Thread) {
    && ScriptOk(sh, th.script) && InOrder(th.held, th.script) && Sorted(th.held)
    && (HoldsRoot(th) ==> RootCode(sh, th.script))
  }

  /** Threads hold compatible locks. */
  ghost predicate Compatible(s: System) {
    forall t, u, l :: t in s.threads && u in s.threads && t != u
                      && l in HeldMap(s.threads[t].held) && l in HeldMap(s.threads[u].held) ==>
      !Conflict(HeldMap(s.threads[t].held)[l], HeldMap(s.threads[u].held)[l])
  }

  ghost predicate RootFree(s: System) {
    forall t :: t in s.threads ==> !HoldsRoot(s.threads[t])
  }

  ghost predicate Inv(s: System) {
    && ShapeOk(s.sh)
    && (forall t :: t in s.threads ==> ThreadInv(s.sh, s.threads[t]))
    && Compatible(s)
    && (RootFree(s) ==> Exact(s.sh))
  }

  // ---------------------------------------------------------------- counting

  lemma NamedIsLive(sh: Shared, n: Name)
    requires Exact(sh) && Find(sh.dir, n) != -1
    ensures ROOT < Find(sh.dir, n) < |sh.taken| && sh.taken[Find(sh.dir, n)]
    ensures LinkCount(sh.dir, Find(sh.dir, n)) > 0
  {
    var k := FindSlot(sh.dir, n);
    var i := sh.dir[k].inum;
    assert Occupied(sh.dir[k]);
    assert k in Refs(sh.dir, i);
    assert ExactAt(sh.dir, sh.taken, sh.inodes, i);
  }

  /** `inode_alloc` takes an inode that nothing names. */
  lemma TakeExact(sh: Shared)
    requires Exact(sh) && ShapeOk(sh) && FirstFree(sh.taken) < |sh.taken|
    ensures var i := FirstFree(sh.taken); var sh' := sh.(taken := sh.taken[i := true]);
            ROOT < i && ExactBut(sh', i) && LinkCount(sh'.dir, i) == 0
  {
    var i := FirstFree(sh.taken);
    assert ExactAt(sh.dir, sh.taken, sh.inodes, i);
    var taken' := sh.taken[i := true];
    forall j | ROOT < j < |sh.taken| && j != i ensures ExactAt(sh.dir, taken', sh.inodes, j) {
      assert ExactAt(sh.dir, sh.taken, sh.inodes, j);
    }
  }

  /** Rewriting the inode that is not accounted for. */
  lemma RewriteExact(sh: Shared, i: nat, node: Inode)
    requires ExactBut(sh, i)
    ensures ExactBut(sh.(inodes := sh.inodes[i := node]), i)
    ensures LinkCount(sh.dir, i) > 0 && node.links == LinkCount(sh.dir, i) ==>
        Exact(sh.(inodes := sh.inodes[i := node]))
  {
    var inodes' := sh.inodes[i := node];
    forall j | ROOT < j < |sh.taken| && (j != i || (LinkCount(sh.dir, i) > 0 && node.links == LinkCount(sh.dir, i)))
      ensures ExactAt(sh.dir, sh.taken, inodes', j)
    {
      if j != i { assert ExactAt(sh.dir, sh.taken, sh.inodes, j); }
    }
  }

  /** Freeing an inode that nothing names. */
  lemma FreeExact(sh: Shared, i: nat)
    requires ExactBut(sh, i) && LinkCount(sh.dir, i) == 0
    ensures Exact(sh.(taken := sh.taken[i := false]))
  {
    var taken' := sh.taken[i := false];
    forall j | ROOT < j < |sh.taken| ensures ExactAt(sh.dir, taken', sh.inodes, j) {
      if j != i { assert ExactAt(sh.dir, sh.taken, sh.inodes, j); }
    }
  }

  /** A new entry for an inode: one more reference to it, none to any other. */
  lemma AddExact(sh: Shared, n: Name, i: nat)
    requires DirInv(sh.dir) && InRange(sh.dir, |sh.taken|) && |sh.taken| == |sh.inodes|
    requires ROOT < i < |sh.taken| && sh.taken[i]
    requires forall j :: ROOT < j < |sh.taken| && j != i ==> ExactAt(sh.dir, sh.taken, sh.inodes, j)
    requires NulFree(n) && Find(sh.dir, n) == -1 && Add(sh.dir, n, i).Some?
    ensures var sh' := sh.(dir := Add(sh.dir, n, i).value);
            && ExactBut(sh', i) && LinkCount(sh'.dir, i) == LinkCount(sh.dir, i) + 1
            && (LinkCount(sh.dir, i) + 1 == sh.inodes[i].links ==> Exact(sh'))
  {
    AddEffect(sh.dir, n, i);
    var d' := Add(sh.dir, n, i).value;
    forall j | ROOT < j < |sh.taken| && (j != i || LinkCount(sh.dir, i) + 1 == sh.inodes[i].links)
      ensures ExactAt(d', sh.taken, sh.inodes, j)
    {
      if j != i { assert ExactAt(sh.dir, sh.taken, sh.inodes, j); }
    }
  }

  /** A second name for a file leaves its count one too low. */
  lemma HardLinkExact(sh: Shared, n: Name, i: nat)
    requires Exact(sh) && ROOT < i < |sh.taken| && sh.taken[i]
    requires NulFree(n) && Find(sh.dir, n) == -1 && Add(sh.dir, n, i).Some?
    ensures var sh' := sh.(dir := Add(sh.dir, n, i).value);
            ExactBut(sh', i) && LinkCount(sh'.dir, i) == sh'.inodes[i].links + 1
  {
    assert ExactAt(sh.dir, sh.taken, sh.inodes, i);
    AddExact(sh, n, i);
  }

  /** Clearing the entry that the lookup found leaves the count one too high. */
  lemma ClearExact(sh: Shared, n: Name, i: nat)
    requires Exact(sh) && n != [] && Find(sh.dir, n) == i
    ensures Clear(sh.dir, n).Some?
    ensures var sh' := sh.(dir := Clear(sh.dir, n).value);
            ExactBut(sh', i) && sh'.inodes[i].links == LinkCount(sh'.dir, i) + 1
  {
    NamedIsLive(sh, n);
    ClearEffect(sh.dir, n);
    var d' := Clear(sh.dir, n).value;
    assert ExactAt(sh.dir, sh.taken, sh.inodes, i);
    forall j | ROOT < j < |sh.taken| && j != i ensures ExactAt(d', sh.taken, sh.inodes, j) {
      assert ExactAt(sh.dir, sh.taken, sh.inodes, j);
    }
  }

  // ---------------------------------------------------------------- scripts

  lemma OpenInOrder(n: Name, creat: bool)
    ensures InOrder(Empty, OpenScript(n, creat))
  {
    assert InOrder(UNDER_ROOT, Do(OpenLookup(n, creat)));
  }

  lemma RegisterInOrder(i: nat)
    ensures InOrder(Empty, RegisterScript(i))
  {
    assert InOrder(Push(OPEN_TABLE, Writer, Empty), Do(FindHandle(i)));
  }

  lemma LeavesInOrder(i: nat, h: nat)
    ensures InOrder(UNDER_ROOT, LEAVE_ROOT)
    ensures InOrder(Push(OPEN_TABLE, Writer, Empty), LEAVE_TABLE)
    ensures InOrder(UnderRootAnd(InodeLock(i)), LeaveFile(i))
    ensures forall a :: InOrder(Push(InodeLock(i), a, Push(HandleLock(h), Writer, Empty)), LeaveIo(h, i))
  {
    assert InOrder(UNDER_ROOT, LEAVE_ROOT);
    assert InOrder(Push(HandleLock(h), Writer, Empty), Release(HandleLock(h), Return));
  }

  lemma BeginInOrder(r: Request)
    ensures InOrder(Empty, Begin(r))
  {
    match r
    case ReqOpen(n, creat) => OpenInOrder(n, creat);
    case _ =>
  }

  /** The accesses of create, symlink and their rollback. */
  predicate Creates(op: TableAccess) {
    || op.OpenLookup? || op.SymLookup? || op.TakeInode? || op.InitInode? || op.LinkBlock? || op.AddEntry?
    || op.UndoInode? || op.UndoFree?
  }

  /** The accesses of a hard link and those of unlink that look the name up. */
  predicate Links(op: TableAccess) {
    op.HardLookup? || op.HardEntry? || op.HardCount? || op.UnlinkLookup? || op.UnlinkOpen?
  }

  /** The accesses of unlink that remove the name. */
  predicate Removes(op: TableAccess) {
    op.UnlinkClear? || op.UnlinkCount? || op.UnlinkDelete? || op.UnlinkFree?
  }

  predicate UsesRoot(op: TableAccess) {
    Creates(op) || Links(op) || Removes(op)
  }

  lemma CreatesInOrder(sh: Shared, op: TableAccess, ch: Choice)
    requires ShapeOk(sh) && OpOk(sh, op) && Creates(op)
    requires op.UndoInode? ==> sh.taken[op.i]
    ensures InOrder(Locks(op), Exec(sh, op, ch).1)
  {
    LeavesInOrder(0, 0);
    if op.AddEntry? { RegisterInOrder(op.i); }
  }

  lemma LinksInOrder(sh: Shared, op: TableAccess, ch: Choice)
    requires ShapeOk(sh) && OpOk(sh, op) && Links(op)
    ensures InOrder(Locks(op), Exec(sh, op, ch).1)
  {
    LeavesInOrder(if op.HardEntry? || op.HardCount? then op.i else 0, 0);
  }

  lemma RemovesInOrder(sh: Shared, op: TableAccess, ch: Choice)
    requires ShapeOk(sh) && OpOk(sh, op) && Removes(op)
    requires op.UnlinkDelete? ==> sh.taken[op.i]
    ensures InOrder(Locks(op), Exec(sh, op, ch).1)
  {
    LeavesInOrder(op.i, 0);
  }

  lemma HandlesInOrder(sh: Shared, op: TableAccess, ch: Choice)
    requires ShapeOk(sh) && OpOk(sh, op) && !UsesRoot(op)
    ensures InOrder(Locks(op), Exec(sh, op, ch).1)
  {
    LeavesInOrder(0, 0);
    match op
    case OpenInode(i, creat) =>
      RegisterInOrder(i);
      OpenInOrder(ch.name, false);
      assert InOrder(Locks(op), Release(InodeLock(i), RegisterScript(i)));
    case IoInode(h, i, write) => LeavesInOrder(i, h);
    case _ =>
  }

  /** Whatever an access leads to takes further locks in rising rank and gives every lock back. */
  lemma ExecInOrder(sh: Shared, op: TableAccess, ch: Choice)
    requires ShapeOk(sh) && OpOk(sh, op)
    requires (op.UnlinkDelete? || op.UndoInode?) ==> sh.taken[op.i]
    ensures InOrder(Locks(op), Exec(sh, op, ch).1)
  {
    if Creates(op) {
      CreatesInOrder(sh, op, ch);
    } else if Links(op) {
      LinksInOrder(sh, op, ch);
    } else if Removes(op) {
      RemovesInOrder(sh, op, ch);
    } else {
      HandlesInOrder(sh, op, ch);
    }
  }

  // ---------------------------------------------------------------- accesses

  ghost predicate SameTables(sh: Shared, sh': Shared) {
    sh'.dir == sh.dir && sh'.taken == sh.taken && sh'.inodes == sh.inodes
  }

  /** Sizes never change and a handle that has been set stays set. */
  ghost predicate Extends(sh: Shared, sh': Shared) {
    && |sh'.inodes| == |sh.inodes| && |sh'.handles| == |sh.handles|
    && (forall h :: 0 <= h < |sh.handles| && sh.handles[h].Some? ==> sh'.handles[h].Some?)
  }

  lemma {:induction false} ExtendsOk(sh: Shared, sh': Shared, k: Script)
    requires ShapeOk(sh) && ShapeOk(sh') && Extends(sh, sh') && ScriptOk(sh, k)
    ensures ScriptOk(sh', k)
  {
    match k
    case Acquire(_, _, next) => ExtendsOk(sh, sh', next);
    case Release(_, next) => ExtendsOk(sh, sh', next);
    case Do(op) =>
    case Return =>
  }

  lemma {:induction false} SameTablesCode(sh: Shared, sh': Shared, k: Script)
    requires SameTables(sh, sh') && RootCode(sh, k)
    ensures RootCode(sh', k)
  {
    match k
    case Acquire(_, _, next) => SameTablesCode(sh, sh', next);
    case Release(l, next) => if l != ROOT_LOCK { SameTablesCode(sh, sh', next); }
    case Do(op) =>
    case Return =>
  }

  lemma LeavesOk(sh: Shared, i: nat, h: nat)
    ensures ScriptOk(sh, LeaveFile(i)) && ScriptOk(sh, LeaveIo(h, i))
  {
    assert ScriptOk(sh, LEAVE_ROOT);
    assert ScriptOk(sh, Release(HandleLock(h), Return));
  }

  lemma CreatesShape(sh: Shared, op: TableAccess, ch: Choice)
    requires ShapeOk(sh) && OpOk(sh, op) && Creates(op)
    ensures ShapeOk(Exec(sh, op, ch).0) && Extends(sh, Exec(sh, op, ch).0)
  {
    var sh' := Exec(sh, op, ch).0;
    assert sh'.handles == sh.handles && sh'.handleTaken == sh.handleTaken;
    assert |sh'.inodes| == |sh.inodes| && |sh'.taken| == |sh.taken|;
  }

  lemma CreatesOk(sh: Shared, op: TableAccess, ch: Choice)
    requires ShapeOk(sh) && OpOk(sh, op) && Creates(op) && (op.OpenLookup? ==> Exact(sh))
    requires |Exec(sh, op, ch).0.inodes| == |sh.inodes|
    ensures var (sh', k) := Exec(sh, op, ch); ScriptOk(sh', k)
  {
    match op
    case OpenLookup(n, creat) => if Find(sh.dir, n) != -1 { NamedIsLive(sh, n); }
    case _ =>
  }

  lemma LinksShape(sh: Shared, op: TableAccess, ch: Choice)
    requires ShapeOk(sh) && OpOk(sh, op) && (Links(op) || Removes(op))
    ensures ShapeOk(Exec(sh, op, ch).0) && Extends(sh, Exec(sh, op, ch).0)
  {
    var sh' := Exec(sh, op, ch).0;
    assert sh'.handles == sh.handles && sh'.handleTaken == sh.handleTaken;
    assert |sh'.inodes| == |sh.inodes| && |sh'.taken| == |sh.taken|;
  }

  lemma LinksOk(sh: Shared, op: TableAccess, ch: Choice)
    requires ShapeOk(sh) && OpOk(sh, op) && Links(op) && (op.HardLookup? ==> Exact(sh))
    requires |Exec(sh, op, ch).0.inodes| == |sh.inodes|
    ensures var (sh', k) := Exec(sh, op, ch); ScriptOk(sh', k)
  {
    match op
    case HardLookup(target, n) => if Find(sh.dir, target) != -1 { NamedIsLive(sh, target); }
    case _ =>
  }

  lemma RemovesOk(sh: Shared, op: TableAccess, ch: Choice)
    requires ShapeOk(sh) && OpOk(sh, op) && Removes(op)
    requires |Exec(sh, op, ch).0.inodes| == |sh.inodes|
    ensures var (sh', k) := Exec(sh, op, ch); ScriptOk(sh', k)
  {
    LeavesOk(Exec(sh, op, ch).0, op.i, 0);
  }

  lemma HandlesShape(sh: Shared, op: TableAccess, ch: Choice)
    requires ShapeOk(sh) && OpOk(sh, op) && !UsesRoot(op)
    ensures var (sh', k) := Exec(sh, op, ch);
            ShapeOk(sh') && Extends(sh, sh') && ScriptOk(sh', k) && SameTables(sh, sh')
  {
    if op.OpenInode? {
      assert ScriptOk(sh, RegisterScript(op.i));
      assert ScriptOk(sh, Release(InodeLock(op.i), RegisterScript(op.i)));
    } else if op.IoInode? {
      LeavesOk(sh, op.i, op.h);
    }
  }

  lemma BranchRoot(sh: Shared, op: TableAccess, ch: Choice)
    requires ShapeOk(sh) && OpOk(sh, op) && RootData(sh, op)
    requires op.OpenLookup? || op.SymLookup? || op.LinkBlock? || op.UndoInode?
    ensures var (sh', k) := Exec(sh, op, ch); RootCode(sh', k)
  {
  }

  lemma AllocRoot(sh: Shared, op: TableAccess, ch: Choice)
    requires ShapeOk(sh) && OpOk(sh, op) && RootData(sh, op) && (op.TakeInode? || op.InitInode?)
    ensures var (sh', k) := Exec(sh, op, ch); RootCode(sh', k)
  {
    match op
    case TakeInode(n, kind) => if FirstFree(sh.taken) < |sh.taken| { TakeExact(sh); }
    case InitInode(n, kind, i) => RewriteExact(sh, i, Inode(kind, 1, 0, -1));
  }

  lemma AddRoot(sh: Shared, op: TableAccess, ch: Choice)
    requires ShapeOk(sh) && OpOk(sh, op) && RootData(sh, op) && (op.AddEntry? || op.UndoFree?)
    ensures var (sh', k) := Exec(sh, op, ch); RootCode(sh', k)
  {
    match op
    case AddEntry(n, kind, i) => if Add(sh.dir, n, i).Some? { AddExact(sh, n, i); }
    case UndoFree(i) => FreeExact(sh, i);
  }

  lemma HardRoot(sh: Shared, op: TableAccess, ch: Choice)
    requires ShapeOk(sh) && OpOk(sh, op) && RootData(sh, op) && (op.HardLookup? || op.HardEntry? || op.HardCount?)
    ensures var (sh', k) := Exec(sh, op, ch); RootCode(sh', k)
  {
    match op
    case HardLookup(target, n) => if Find(sh.dir, target) >= 0 { NamedIsLive(sh, target); }
    case HardEntry(n, i) => if Add(sh.dir, n, i).Some? { HardLinkExact(sh, n, i); }
    case HardCount(i) => RewriteExact(sh, i, sh.inodes[i].(links := sh.inodes[i].links + 1));
  }

  lemma LookupRoot(sh: Shared, op: TableAccess, ch: Choice)
    requires ShapeOk(sh) && OpOk(sh, op) && RootData(sh, op) && (op.UnlinkLookup? || op.UnlinkOpen?)
    ensures var (sh', k) := Exec(sh, op, ch); RootCode(sh', k)
  {
    if op.UnlinkLookup? { FindIffNamed(sh.dir, op.n); }
  }

  lemma RemovesRoot(sh: Shared, op: TableAccess, ch: Choice)
    requires ShapeOk(sh) && OpOk(sh, op) && RootData(sh, op) && Removes(op)
    ensures var (sh', k) := Exec(sh, op, ch); RootCode(sh', k)
  {
    match op
    case UnlinkClear(n, i) => ClearExact(sh, n, i);
    case UnlinkCount(i) =>
      if sh.inodes[i].links != 1 { RewriteExact(sh, i, sh.inodes[i].(links := sh.inodes[i].links - 1)); }
    case UnlinkFree(i) => FreeExact(sh, i);
    case _ =>
  }

  // ---------------------------------------------------------------- one access

  /** The thread that makes a root access holds the root lock for writing. */
  lemma RootAccesses(op: TableAccess)
    ensures UsesRoot(op) <==> ROOT_LOCK in HeldMap(Locks(op))
    ensures Sorted(Locks(op))
  {
    assert ROOT_LOCK in HeldMap(UNDER_ROOT);
    assert forall l :: ROOT_LOCK in HeldMap(UnderRootAnd(l));
  }

  lemma ExecKeeps(sh: Shared, op: TableAccess, ch: Choice)
    requires ShapeOk(sh) && OpOk(sh, op)
    requires UsesRoot(op) ==> RootData(sh, op)
    ensures var (sh', k) := Exec(sh, op, ch);
            && ShapeOk(sh') && Extends(sh, sh') && ScriptOk(sh', k) && InOrder(Locks(op), k)
            && (if UsesRoot(op) then RootCode(sh', k) else SameTables(sh, sh'))
  {
    ExecInOrder(sh, op, ch);
    if Creates(op) {
      CreatesShape(sh, op, ch);
      CreatesOk(sh, op, ch);
      if op.TakeInode? || op.InitInode? { AllocRoot(sh, op, ch); }
      else if op.AddEntry? || op.UndoFree? { AddRoot(sh, op, ch); }
      else { BranchRoot(sh, op, ch); }
    } else if Removes(op) {
      LinksShape(sh, op, ch);
      RemovesOk(sh, op, ch);
      RemovesRoot(sh, op, ch);
    } else if Links(op) {
      LinksShape(sh, op, ch);
      LinksOk(sh, op, ch);
      if op.UnlinkLookup? || op.UnlinkOpen? { LookupRoot(sh, op, ch); } else { HardRoot(sh, op, ch); }
    } else {
      HandlesShape(sh, op, ch);
    }
  }

  // ---------------------------------------------------------------- lock stacks

  lemma {:induction false} TopIsHighest(st: Stack, l: Lock)
    requires Sorted(st) && l in HeldMap(st)
    ensures st.Push? && l.level <= st.lock.level && (l != st.lock ==> l.level < st.lock.level)
    ensures l == ROOT_LOCK ==> HeldMap(st)[l] == Writer
  {
    if l != st.lock { TopIsHighest(st.below, l); }
  }

  /** Releasing the top lock gives up that lock and no other. */
  lemma PopHeld(st: Stack)
    requires Sorted(st) && st.Push?
    ensures HeldMap(st.below) == HeldMap(st) - {st.lock}
  {
    if st.lock in HeldMap(st.below) { TopIsHighest(st.below, st.lock); }
  }

  lemma ThreadOrdered(sh: Shared, th: Thread)
    requires ThreadInv(sh, th)
    ensures Ordered(ViewOf(th)) && WantLevel(ViewOf(th)) <= FREE_BLOCKS.level
  {
    if th.script.Acquire? {
      forall l | l in HeldMap(th.held) ensures l.level < th.script.lock.level {
        TopIsHighest(th.held, l);
      }
    }
  }

  /** One step of a thread: what it keeps, which locks it may gain, and when it may change the tables. */
  lemma ThreadStep(sh: Shared, th: Thread, ch: Choice)
    requires ShapeOk(sh) && ThreadInv(sh, th)
    requires th.script.Acquire? && th.script.lock == ROOT_LOCK ==> Exact(sh)
    ensures var (sh', th') := StepThread(sh, th, ch);
            && ShapeOk(sh') && Extends(sh, sh') && ThreadInv(sh', th')
            && (!HoldsRoot(th) ==> SameTables(sh, sh'))
            && (HoldsRoot(th) && !HoldsRoot(th') ==> Exact(sh'))
            && (forall l :: l in HeldMap(th'.held) ==>
                  || (l in HeldMap(th.held) && HeldMap(th.held)[l] == HeldMap(th'.held)[l])
                  || (th.script.Acquire? && l == th.script.lock && HeldMap(th'.held)[l] == th.script.access))
  {
    match th.script
    case Acquire(l, a, k) =>
    case Release(l, k) => PopHeld(th.held);
    case Do(op) =>
      RootAccesses(op);
      ExecKeeps(sh, op, ch);
    case Return =>
  }

  // ---------------------------------------------------------------- all threads

  /** The effect of one thread's step on the whole system. */
  lemma StepSystem(s: System, t: nat, sh': Shared, th': Thread)
    requires Inv(s) && t in s.threads
    requires ShapeOk(sh') && Extends(s.sh, sh') && ThreadInv(sh', th')
    requires !HoldsRoot(s.threads[t]) ==> SameTables(s.sh, sh')
    requires HoldsRoot(s.threads[t]) && !HoldsRoot(th') ==> Exact(sh')
    requires forall u, l :: u in s.threads && u != t && l in HeldMap(th'.held) && l in HeldMap(s.threads[u].held) ==>
               !Conflict(HeldMap(th'.held)[l], HeldMap(s.threads[u].held)[l])
    ensures Inv(System(sh', s.threads[t := th']))
  {
    var s' := System(sh', s.threads[t := th']);
    forall u | u in s'.threads ensures ThreadInv(sh', s'.threads[u]) {
      if u != t {
        var th := s.threads[u];
        ExtendsOk(s.sh, sh', th.script);
        if HoldsRoot(th) {
          OneRootHolder(s, t, u);
          SameTablesCode(s.sh, sh', th.script);
        }
      }
    }
    if RootFree(s') {
      assert !HoldsRoot(s'.threads[t]);
      if !HoldsRoot(s.threads[t]) {
        forall u | u in s.threads ensures !HoldsRoot(s.threads[u]) {
          assert u in s'.threads;
        }
      }
    }
  }

  /** The root lock is only taken for writing, so two threads never hold it. */
  lemma OneRootHolder(s: System, t: nat, u: nat)
    requires Inv(s) && t in s.threads && u in s.threads && t != u && HoldsRoot(s.threads[u])
    ensures !HoldsRoot(s.threads[t])
  {
    assert ThreadInv(s.sh, s.threads[u]);
    TopIsHighest(s.threads[u].held, ROOT_LOCK);
  }

  /** A thread that may take its lock gets one that nobody else holds in a conflicting mode. */
  lemma EnabledFree(s: System, t: nat, u: nat)
    requires Enabled(s, t) && s.threads[t].script.Acquire? && u in s.threads && u != t
    requires s.threads[t].script.lock in HeldMap(s.threads[u].held)
    ensures !Conflict(s.threads[t].script.access, HeldMap(s.threads[u].held)[s.threads[t].script.lock])
  {
    assert !WaitsFor(ViewsOf(s), t, u);
  }

  lemma RootWasFree(s: System, t: nat)
    requires Inv(s) && Enabled(s, t) && s.threads[t].script.Acquire? && s.threads[t].script.lock == ROOT_LOCK
    ensures RootFree(s) && Exact(s.sh)
  {
    assert ThreadInv(s.sh, s.threads[t]);
    forall u | u in s.threads ensures !HoldsRoot(s.threads[u]) {
      if u != t {
        if HoldsRoot(s.threads[u]) { EnabledFree(s, t, u); }
      } else if HoldsRoot(s.threads[t]) {
        TopIsHighest(s.threads[t].held, ROOT_LOCK);
      }
    }
  }

  lemma InvIsGood(s: System)
    requires Inv(s)
    ensures Good(s)
  {
    forall t | t in s.threads ensures ScriptOk(s.sh, s.threads[t].script) {
      assert ThreadInv(s.sh, s.threads[t]);
    }
  }

  lemma StepKeeps(s: System, t: nat, ch: Choice)
    requires Inv(s) && Good(s) && Enabled(s, t) && s.threads[t] != Thread(Empty, Return)
    ensures Inv(Act(s, Step(t, ch)))
  {
    var th := s.threads[t];
    assert ThreadInv(s.sh, th);
    if th.script.Acquire? && th.script.lock == ROOT_LOCK { RootWasFree(s, t); }
    ThreadStep(s.sh, th, ch);
    var (sh', th') := StepThread(s.sh, th, ch);
    forall u, l | u in s.threads && u != t && l in HeldMap(th'.held) && l in HeldMap(s.threads[u].held)
      ensures !Conflict(HeldMap(th'.held)[l], HeldMap(s.threads[u].held)[l])
    {
      if th.script.Acquire? && l == th.script.lock && HeldMap(th'.held)[l] == th.script.access {
        EnabledFree(s, t, u);
      }
    }
    StepSystem(s, t, sh', th');
  }

  /** A thread that holds nothing comes or goes. */
  lemma ThreadsChange(s: System, threads: map<nat, Thread>, t: nat)
    requires Inv(s) && (t in s.threads ==> s.threads[t].held == Empty)
    requires threads - {t} == s.threads - {t}
    requires t in threads ==> ThreadInv(s.sh, threads[t]) && threads[t].held == Empty
    ensures Inv(System(s.sh, threads))
  {
    var s' := System(s.sh, threads);
    forall u | u in threads && u != t ensures u in s.threads && threads[u] == s.threads[u] {
      assert u in threads - {t};
      assert (threads - {t})[u] == (s.threads - {t})[u];
    }
    forall u | u in threads ensures ThreadInv(s.sh, threads[u]) {
      if u != t { assert ThreadInv(s.sh, s.threads[u]); }
    }
    if RootFree(s') {
      forall u | u in s.threads ensures !HoldsRoot(s.threads[u]) {
        if u != t { assert u in s.threads - {t}; assert u in threads - {t}; }
      }
    }
  }

  lemma ActKeeps(s: System, a: Action)
    requires Inv(s) && Good(s)
    ensures Inv(Act(s, a))
  {
    match a
    case Invoke(t, r) =>
      if t !in s.threads && ScriptOk(s.sh, Begin(r)) {
        BeginInOrder(r);
        ThreadsChange(s, s.threads[t := Thread(Empty, Begin(r))], t);
      }
    case Step(t, ch) =>
      if Enabled(s, t) {
        if s.threads[t] == Thread(Empty, Return) {
          ThreadsChange(s, s.threads - {t}, t);
        } else {
          StepKeeps(s, t, ch);
        }
      }
  }

  // ---------------------------------------------------------------- whole runs

  /** A formatted file system: an empty directory, only the root inode in use, no handle ever set, no call under way. */
  ghost predicate Formatted(s: System) {
    && ShapeOk(s.sh) && s.threads == map[]
    && (forall k :: 0 <= k < |s.sh.dir| ==> !Occupied(s.sh.dir[k]))
    && (forall i :: ROOT < i < |s.sh.taken| ==> !s.sh.taken[i])
  }

  lemma FormattedInv(s: System)
    requires Formatted(s)
    ensures Inv(s)
  {
    forall i | ROOT < i < |s.sh.taken| ensures ExactAt(s.sh.dir, s.sh.taken, s.sh.inodes, i) {
      assert forall k :: 0 <= k < |s.sh.dir| ==> !Occupied(s.sh.dir[k]);
      assert Refs(s.sh.dir, i) == {};
    }
  }

  ghost function Run(s: System, acts: seq<Action>): (r: System)
    requires Inv(s)
    ensures Inv(r)
    decreases |acts|
  {
    InvIsGood(s);
    if acts == [] then s
    else
      ActKeeps(s, acts[0]);
      Run(Act(s, acts[0]), acts[1..])
  }

  /**
   Link-count exactness: in every interleaving, whenever no thread holds the root lock, names are distinct,
   entries name live inodes other than the root, and each live inode's count is the number of its entries.
   */
  lemma LinkCountsExact(s: System, acts: seq<Action>)
    requires Formatted(s)
    ensures Inv(s)
    ensures var r := Run(s, acts); var d := r.sh.dir;
            RootFree(r) ==>
              && (forall j, k :: 0 <= j < k < |d| && Occupied(d[j]) && Occupied(d[k]) ==>
                  CStr(d[j].name) != CStr(d[k].name))
              && (forall k :: 0 <= k < |d| && Occupied(d[k]) ==>
                    ROOT < d[k].inum < |r.sh.taken| && r.sh.taken[d[k].inum])
              && (forall i :: ROOT < i < |r.sh.taken| && r.sh.taken[i] ==> r.sh.inodes[i].links == LinkCount(d, i) > 0)
  {
    FormattedInv(s);
    var r := Run(s, acts);
    if RootFree(r) {
      forall k | 0 <= k < |r.sh.dir| && Occupied(r.sh.dir[k])
        ensures ROOT < r.sh.dir[k].inum < |r.sh.taken| && r.sh.taken[r.sh.dir[k].inum]
      {
        FindUnique(r.sh.dir, k);
        NamedIsLive(r.sh, CStr(r.sh.dir[k].name));
      }
      forall i | ROOT < i < |r.sh.taken| && r.sh.taken[i] ensures r.sh.inodes[i].links == LinkCount(r.sh.dir, i) > 0 {
        assert ExactAt(r.sh.dir, r.sh.taken, r.sh.inodes, i);
      }
    }
  }

  lemma ViewsOrdered(s: System)
    requires Inv(s)
    ensures AllOrdered(ViewsOf(s), FREE_BLOCKS.level)
  {
    var vs := ViewsOf(s);
    forall t | t in vs ensures Ordered(vs[t]) && WantLevel(vs[t]) <= FREE_BLOCKS.level {
      ThreadOrdered(s.sh, s.threads[t]);
    }
  }

  /** Deadlock freedom: in every interleaving no wait cycle arises, and some thread under way can step. */
  lemma DeadlockFree(s: System, acts: seq<Action>)
    requires Formatted(s)
    ensures Inv(s)
    ensures forall c: seq<nat> :: |c| >= 2 && c[0] == c[|c| - 1] ==> !WaitChain(ViewsOf(Run(s, acts)), c)
    ensures Run(s, acts).threads != map[] ==> exists t :: Enabled(Run(s, acts), t)
  {
    FormattedInv(s);
    var r := Run(s, acts);
    ViewsOrdered(r);
    forall c: seq<nat> | |c| >= 2 && c[0] == c[|c| - 1] ensures !WaitChain(ViewsOf(r), c) {
      NoWaitCycle(ViewsOf(r), FREE_BLOCKS.level, c);
    }
    if t :| t in r.threads {
      var u := Progress(ViewsOf(r), FREE_BLOCKS.level, t);
      assert Enabled(r, u);
    }
  }

  /**
   In every interleaving a call returns holding no lock, and every access is made under exactly its locks; the
   failure of inode_delete inside unlink, which would return with the inode locked, cannot happen.
   */
  lemma ReturnsUnlocked(s: System, acts: seq<Action>, t: nat)
    requires Formatted(s)
    ensures Inv(s)
    ensures t in Run(s, acts).threads ==>
              var th := Run(s, acts).threads[t];
              && (th.script.Return? ==> th.held == Empty)
              && (th.script.Do? ==> th.held == Locks(th.script.op))
              && (th.script.Do? && th.script.op.UnlinkDelete? ==> Run(s, acts).sh.taken[th.script.op.i])
  {
    FormattedInv(s);
    var r := Run(s, acts);
    if t in r.threads {
      assert ThreadInv(r.sh, r.threads[t]);
      if r.threads[t].script.Do? { RootAccesses(r.threads[t].script.op); }
    }
  }
}
