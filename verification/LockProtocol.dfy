/**
 The locking of TecnicoFS (fs/operations.c, fs/state.c) as a transition system over any number of threads. A
 thread runs a script of acquisitions and releases between atomic accesses to the directory, the inode table
 and the open-file table; each access decides the script that follows. Sizes and blocks are abstracted to a
 free choice of branch.
 */
module LockProtocol {
  import opened Bytes
  import opened Directory
  import opened LockOrder
  import opened Tfs

  /** Handles start out unset: a client only passes handles that an open has returned. */
  datatype Shared = Shared(
    dir: seq<Slot>, taken: seq<bool>, inodes: seq<Inode>,
    handles: seq<Option<nat>>, handleTaken: seq<bool>)

  /** Accesses to the shared tables, by the lines that make them. */
  datatype TableAccess =
    | OpenLookup(n: Name, creat: bool)              // operations.c:101-104, 153
    | OpenInode(i: nat, creat: bool)                // operations.c:116-151
    | FindHandle(i: nat)                            // state.c:557-559
    | SetHandle(h: nat, i: nat)                     // state.c:561-562
    | TakeInode(n: Name, kind: Kind)                // state.c:198-205
    | InitInode(n: Name, kind: Kind, i: nat)        // state.c:246-285
    | LinkBlock(n: Name, i: nat)                    // operations.c:221-235
    | AddEntry(n: Name, kind: Kind, i: nat)         // operations.c:163, 238
    | UndoInode(i: nat)                             // operations.c:164, 224, 239; state.c:313-318
    | UndoFree(i: nat)                              // state.c:322
    | SymLookup(target: Name, n: Name)              // operations.c:198-208
    | HardLookup(target: Name, n: Name)             // operations.c:261-272
    | HardEntry(n: Name, i: nat)                    // operations.c:281-288
    | HardCount(i: nat)                             // operations.c:295
    | UnlinkLookup(n: Name)                         // operations.c:434-447
    | UnlinkOpen(n: Name, i: nat)                   // state.c:642-649
    | UnlinkClear(n: Name, i: nat)                  // operations.c:453
    | UnlinkCount(i: nat)                           // operations.c:462, 469
    | UnlinkDelete(i: nat)                          // state.c:313-318
    | UnlinkFree(i: nat)                            // state.c:322
    | IoHandle(h: nat, write: bool)                 // operations.c:328-333, 394-396
    | IoInode(h: nat, i: nat, write: bool)          // operations.c:337-345, 400-417
    | CloseHandle(h: nat)                           // state.c:591-596

  datatype Script =
    | Acquire(lock: Lock, access: Access, next: Script)
    | Release(lock: Lock, next: Script)
    | Do(op: TableAccess)
    | Return

  /** The locks a thread holds, the last one taken on top. */
  datatype Stack = Empty | Push(lock: Lock, access: Access, below: Stack)

  datatype Thread = Thread(held: Stack, script: Script)

  // ---------------------------------------------------------------- locks

  const ROOT_LOCK := Lock(0, 0)
  const OPEN_TABLE := Lock(1, 0)
  const INODE_TABLE := Lock(4, 0)
  const FREE_BLOCKS := Lock(5, 0)

  function HandleLock(h: nat): Lock {
    Lock(2, h)
  }

  /** The lock of a file's inode; the root's own lock is `ROOT_LOCK`. */
  function InodeLock(i: nat): Lock {
    Lock(3, i)
  }

  const UNDER_ROOT := Push(ROOT_LOCK, Writer, Empty)

  function UnderRootAnd(l: Lock): Stack {
    Push(l, Writer, UNDER_ROOT)
  }

  function IoAccess(write: bool): Access {
    if write then Writer else Reader
  }

  /** The locks under which each access is made. */
  function Locks(op: TableAccess): Stack {
    match op
    case OpenInode(i, _) => Push(InodeLock(i), Writer, Empty)
    case FindHandle(_) => Push(OPEN_TABLE, Writer, Empty)
    case SetHandle(h, _) => Push(HandleLock(h), Writer, Push(OPEN_TABLE, Writer, Empty))
    case TakeInode(_, _) => UnderRootAnd(INODE_TABLE)
    case LinkBlock(_, _) => UnderRootAnd(FREE_BLOCKS)
    case UndoInode(_) => UnderRootAnd(INODE_TABLE)
    case UndoFree(_) => UnderRootAnd(INODE_TABLE)
    case HardEntry(_, i) => UnderRootAnd(InodeLock(i))
    case HardCount(i) => UnderRootAnd(InodeLock(i))
    case UnlinkOpen(_, _) => Push(OPEN_TABLE, Reader, UNDER_ROOT)
    case UnlinkCount(i) => UnderRootAnd(InodeLock(i))
    case UnlinkDelete(i) => Push(INODE_TABLE, Writer, UnderRootAnd(InodeLock(i)))
    case UnlinkFree(i) => Push(INODE_TABLE, Writer, UnderRootAnd(InodeLock(i)))
    case IoHandle(h, _) => Push(HandleLock(h), Writer, Empty)
    case IoInode(h, i, write) => Push(InodeLock(i), IoAccess(write), Push(HandleLock(h), Writer, Empty))
    case CloseHandle(_) => Push(OPEN_TABLE, Writer, Empty)
    case _ => UNDER_ROOT
  }

  // ---------------------------------------------------------------- scripts

  const LEAVE_ROOT := Release(ROOT_LOCK, Return)
  const LEAVE_TABLE := Release(OPEN_TABLE, Return)

  function OpenScript(n: Name, creat: bool): Script {
    Acquire(ROOT_LOCK, Writer, Do(OpenLookup(n, creat)))
  }

  function RegisterScript(i: nat): Script {
    Acquire(OPEN_TABLE, Writer, Do(FindHandle(i)))
  }

  function UndoScript(i: nat): Script {
    Acquire(INODE_TABLE, Writer, Do(UndoInode(i)))
  }

  function LeaveFile(i: nat): Script {
    Release(InodeLock(i), LEAVE_ROOT)
  }

  function LeaveIo(h: nat, i: nat): Script {
    Release(InodeLock(i), Release(HandleLock(h), Return))
  }

  // ---------------------------------------------------------------- accesses

  ghost predicate ShapeOk(sh: Shared) {
    && 0 < |sh.inodes| == |sh.taken|
    && |sh.handles| == |sh.handleTaken|
    && sh.taken[ROOT]
    && (forall h :: 0 <= h < |sh.handles| && sh.handles[h].Some? ==> ROOT < sh.handles[h].value < |sh.inodes|)
  }

  ghost predicate InodeOk(sh: Shared, i: nat) {
    ROOT < i < |sh.inodes|
  }

  /** Indices are in range, a file's inode is never the root, and a handle in use has been set. */
  ghost predicate OpOk(sh: Shared, op: TableAccess) {
    match op
    case OpenLookup(n, _) => NulFree(n)
    case OpenInode(i, _) => InodeOk(sh, i)
    case FindHandle(i) => InodeOk(sh, i)
    case SetHandle(h, i) => InodeOk(sh, i) && h < |sh.handles|
    case TakeInode(n, _) => NulFree(n)
    case InitInode(n, _, i) => NulFree(n) && InodeOk(sh, i)
    case LinkBlock(n, i) => NulFree(n) && InodeOk(sh, i)
    case AddEntry(n, _, i) => NulFree(n) && InodeOk(sh, i)
    case UndoInode(i) => InodeOk(sh, i)
    case UndoFree(i) => InodeOk(sh, i)
    case SymLookup(_, n) => NulFree(n)
    case HardLookup(_, n) => NulFree(n)
    case HardEntry(n, i) => NulFree(n) && InodeOk(sh, i)
    case HardCount(i) => InodeOk(sh, i)
    case UnlinkLookup(_) => true
    case UnlinkOpen(_, i) => InodeOk(sh, i)
    case UnlinkClear(_, i) => InodeOk(sh, i)
    case UnlinkCount(i) => InodeOk(sh, i)
    case UnlinkDelete(i) => InodeOk(sh, i)
    case UnlinkFree(i) => InodeOk(sh, i)
    case IoHandle(h, _) => h < |sh.handles| && sh.handles[h].Some?
    case IoInode(_, i, _) => InodeOk(sh, i)
    case CloseHandle(h) => h < |sh.handles|
  }

  datatype Choice = Choice(yes: bool, name: Name)

  function LessOne(links: nat): nat {
    if links > 0 then links - 1 else 0
  }

  predicate OpenNow(sh: Shared, i: nat)
    requires |sh.handles| == |sh.handleTaken|
  {
    exists h :: 0 <= h < |sh.handles| && sh.handleTaken[h] && sh.handles[h] == Some(i)
  }

  /** The effect of an access and the script it leads to; `ch` resolves what the abstraction leaves open. */
  function Exec(sh: Shared, op: TableAccess, ch: Choice): (Shared, Script)
    requires ShapeOk(sh) && OpOk(sh, op)
  {
    match op
    case OpenLookup(n, creat) =>
      var i := Find(sh.dir, n);
      if i >= 0 then (sh, Release(ROOT_LOCK, Acquire(InodeLock(i), Writer, Do(OpenInode(i, creat)))))
      else if creat then (sh, Acquire(INODE_TABLE, Writer, Do(TakeInode(n, File))))
      else (sh, LEAVE_ROOT)
    case OpenInode(i, creat) =>
      // a symbolic link is followed by a new open of the stored path; a file may be truncated, then registered
      if sh.inodes[i].kind == Link then
        (sh, Release(InodeLock(i), if creat || !NulFree(ch.name) then Return else OpenScript(ch.name, false)))
      else if ch.yes then
        (sh, Acquire(FREE_BLOCKS, Writer, Release(FREE_BLOCKS, Release(InodeLock(i), RegisterScript(i)))))
      else (sh, Release(InodeLock(i), RegisterScript(i)))
    case FindHandle(i) =>
      var h := FirstFree(sh.handleTaken);
      if h == |sh.handleTaken| then (sh, LEAVE_TABLE)
      else (sh.(handleTaken := sh.handleTaken[h := true]), Acquire(HandleLock(h), Writer, Do(SetHandle(h, i))))
    case SetHandle(h, i) => (sh.(handles := sh.handles[h := Some(i)]), Release(HandleLock(h), LEAVE_TABLE))
    case TakeInode(n, kind) =>
      var i := FirstFree(sh.taken);
      if i == |sh.taken| then (sh, Release(INODE_TABLE, LEAVE_ROOT))
      else (sh.(taken := sh.taken[i := true]), Release(INODE_TABLE, Do(InitInode(n, kind, i))))
    case InitInode(n, kind, i) =>
      (sh.(inodes := sh.inodes[i := Inode(kind, 1, 0, -1)]),
       if kind == Link then Acquire(FREE_BLOCKS, Writer, Do(LinkBlock(n, i))) else Do(AddEntry(n, kind, i)))
    case LinkBlock(n, i) => (sh, Release(FREE_BLOCKS, if ch.yes then Do(AddEntry(n, Link, i)) else UndoScript(i)))
    case AddEntry(n, kind, i) =>
      (match Add(sh.dir, n, i)
       case None => (sh, UndoScript(i))
       case Some(d) => (sh.(dir := d), if kind == Link then LEAVE_ROOT else Release(ROOT_LOCK, RegisterScript(i))))
    case UndoInode(i) =>
      if !sh.taken[i] then (sh, Release(INODE_TABLE, LEAVE_ROOT))
      else if ch.yes then (sh, Acquire(FREE_BLOCKS, Writer, Release(FREE_BLOCKS, Do(UndoFree(i)))))
      else (sh, Do(UndoFree(i)))
    case UndoFree(i) => (sh.(taken := sh.taken[i := false]), Release(INODE_TABLE, LEAVE_ROOT))
    case SymLookup(target, n) =>
      (sh, if Find(sh.dir, target) == -1 || Find(sh.dir, n) != -1 then LEAVE_ROOT
           else Acquire(INODE_TABLE, Writer, Do(TakeInode(n, Link))))
    case HardLookup(target, n) =>
      var i := Find(sh.dir, target);
      (sh, if i < 0 || Find(sh.dir, n) != -1 then LEAVE_ROOT else Acquire(InodeLock(i), Writer, Do(HardEntry(n, i))))
    case HardEntry(n, i) =>
      if sh.inodes[i].kind == Link then (sh, LeaveFile(i))
      else
        (match Add(sh.dir, n, i)
         case None => (sh, LeaveFile(i))
         case Some(d) => (sh.(dir := d), Do(HardCount(i))))
    case HardCount(i) => (sh.(inodes := sh.inodes[i := sh.inodes[i].(links := sh.inodes[i].links + 1)]), LeaveFile(i))
    case UnlinkLookup(n) =>
      var i := Find(sh.dir, n);
      if !(ROOT < i < |sh.inodes|) then (sh, LEAVE_ROOT)
      else if sh.inodes[i].kind == Link then (sh, Do(UnlinkClear(n, i)))
      else (sh, Acquire(OPEN_TABLE, Reader, Do(UnlinkOpen(n, i))))
    case UnlinkOpen(n, i) => (sh, Release(OPEN_TABLE, if OpenNow(sh, i) then LEAVE_ROOT else Do(UnlinkClear(n, i))))
    case UnlinkClear(n, i) =>
      (match Clear(sh.dir, n)
       case None => (sh, LEAVE_ROOT)
       case Some(d) => (sh.(dir := d), Acquire(InodeLock(i), Writer, Do(UnlinkCount(i)))))
    case UnlinkCount(i) =>
      if sh.inodes[i].links == 1 then (sh, Acquire(INODE_TABLE, Writer, Do(UnlinkDelete(i))))
      else
        (sh.(inodes := sh.inodes[i := sh.inodes[i].(links := LessOne(sh.inodes[i].links))]),
         LeaveFile(i))
    case UnlinkDelete(i) =>
      // inode_delete of a FREE inode: the call returns at operations.c:466 with the inode lock still held
      if !sh.taken[i] then (sh, Release(INODE_TABLE, LEAVE_ROOT))
      else if ch.yes then (sh, Acquire(FREE_BLOCKS, Writer, Release(FREE_BLOCKS, Do(UnlinkFree(i)))))
      else (sh, Do(UnlinkFree(i)))
    case UnlinkFree(i) => (sh.(taken := sh.taken[i := false]), Release(INODE_TABLE, LeaveFile(i)))
    case IoHandle(h, write) =>
      var i := sh.handles[h].value;
      (sh, Acquire(InodeLock(i), IoAccess(write), Do(IoInode(h, i, write))))
    case IoInode(h, i, write) =>
      (sh, if write && ch.yes then Acquire(FREE_BLOCKS, Writer, Release(FREE_BLOCKS, LeaveIo(h, i))) else LeaveIo(h, i))
    case CloseHandle(h) => (sh.(handleTaken := sh.handleTaken[h := false]), LEAVE_TABLE)
  }

  // ---------------------------------------------------------------- the machine

  datatype Request =
    | ReqOpen(n: Name, creat: bool)
    | ReqSymLink(target: Name, n: Name)
    | ReqLink(target: Name, n: Name)
    | ReqUnlink(n: Name)
    | ReqIo(h: nat, write: bool)
    | ReqClose(h: nat)

  function Begin(r: Request): Script {
    match r
    case ReqOpen(n, creat) => OpenScript(n, creat)
    case ReqSymLink(target, n) => Acquire(ROOT_LOCK, Writer, Do(SymLookup(target, n)))
    case ReqLink(target, n) => Acquire(ROOT_LOCK, Writer, Do(HardLookup(target, n)))
    case ReqUnlink(n) => Acquire(ROOT_LOCK, Writer, Do(UnlinkLookup(n)))
    case ReqIo(h, write) => Acquire(HandleLock(h), Writer, Do(IoHandle(h, write)))
    case ReqClose(h) => Acquire(OPEN_TABLE, Writer, Do(CloseHandle(h)))
  }

  /** The access a script leads to, if any, is well formed. */
  ghost predicate ScriptOk(sh: Shared, k: Script) {
    match k
    case Acquire(_, _, next) => ScriptOk(sh, next)
    case Release(_, next) => ScriptOk(sh, next)
    case Do(op) => OpOk(sh, op)
    case Return => true
  }

  function HeldMap(st: Stack): map<Lock, Access> {
    if st.Empty? then map[] else HeldMap(st.below)[st.lock := st.access]
  }

  function Without(st: Stack, l: Lock): Stack {
    if st.Empty? then Empty
    else if st.lock == l then st.below
    else Push(st.lock, st.access, Without(st.below, l))
  }

  function ViewOf(th: Thread): View {
    View(HeldMap(th.held), if th.script.Acquire? then Some((th.script.lock, th.script.access)) else None)
  }

  datatype System = System(sh: Shared, threads: map<nat, Thread>)

  function ViewsOf(s: System): Views {
    map t | t in s.threads :: ViewOf(s.threads[t])
  }

  /** The lock the thread is about to take, if any, is free for the access it wants. */
  ghost predicate Enabled(s: System, t: nat) {
    t in s.threads && Runnable(ViewsOf(s), t)
  }

  ghost predicate Good(s: System) {
    ShapeOk(s.sh) && forall t :: t in s.threads ==> ScriptOk(s.sh, s.threads[t].script)
  }

  datatype Action = Invoke(t: nat, request: Request) | Step(t: nat, choice: Choice)

  function StepThread(sh: Shared, th: Thread, ch: Choice): (Shared, Thread)
    requires ShapeOk(sh) && ScriptOk(sh, th.script)
  {
    match th.script
    case Acquire(l, a, k) => (sh, Thread(Push(l, a, th.held), k))
    case Release(l, k) => (sh, Thread(Without(th.held, l), k))
    case Do(op) => var (sh', k) := Exec(sh, op, ch); (sh', Thread(th.held, k))
    case Return => (sh, th)
  }

  /** A call that has returned holding nothing leaves; actions that cannot happen leave the state alone. */
  ghost function Act(s: System, a: Action): System
    requires Good(s)
  {
    match a
    case Invoke(t, r) =>
      if t !in s.threads && ScriptOk(s.sh, Begin(r)) then s.(threads := s.threads[t := Thread(Empty, Begin(r))]) else s
    case Step(t, ch) =>
      if !Enabled(s, t) then s
      else if s.threads[t] == Thread(Empty, Return) then s.(threads := s.threads - {t})
      else
        var (sh, th) := StepThread(s.sh, s.threads[t], ch);
        System(sh, s.threads[t := th])
  }
}
