/**
 The directory, the inode vector and the link counts as the calls made one after another would leave them
 (fs/operations.c), and the journal of the interleaved calls in the order in which they hold the root lock.
 */
module RootOrder {
  import opened Bytes
  import opened Directory
  import opened LockOrder
  import opened Tfs
  import opened LockProtocol

  datatype Count = Count(kind: Kind, links: nat)

  datatype Tables = Tables(dir: seq<Slot>, taken: seq<bool>, counts: seq<Count>)

  function Counts(inodes: seq<Inode>): (r: seq<Count>)
    ensures |r| == |inodes|
  {
    seq(|inodes|, i requires 0 <= i < |inodes| => Count(inodes[i].kind, inodes[i].links))
  }

  lemma CountsUpdate(inodes: seq<Inode>, i: nat, node: Inode)
    requires i < |inodes|
    ensures Counts(inodes[i := node]) == Counts(inodes)[i := Count(node.kind, node.links)]
  {
  }

  function TablesOf(sh: Shared): Tables {
    Tables(sh.dir, sh.taken, Counts(sh.inodes))
  }

  function TablesIn(s: State): Tables {
    Tables(s.dir, s.inodeTaken, Counts(s.inodes))
  }

  // ---------------------------------------------------------------- one call after another

  /** A call, whether a block was free for its link, and whether its file was open. */
  datatype Commit = Commit(request: Request, block: bool, busy: bool)

  /** inode_create and add_dir_entry; the count of a rolled-back inode stays behind in the FREE record. */
  function Created(T: Tables, n: Name, kind: Kind, block: bool): Tables
    requires |T.counts| == |T.taken|
  {
    var i := FirstFree(T.taken);
    if i == |T.taken| then T
    else
      var T1 := T.(counts := T.counts[i := Count(kind, 1)]);
      if !block then T1
      else
        match Add(T.dir, n, i)
        case None => T1
        case Some(d) => T1.(dir := d, taken := T.taken[i := true])
  }

  function Relinked(T: Tables, i: nat, links: nat): Tables
    requires i < |T.counts|
  {
    T.(counts := T.counts[i := T.counts[i].(links := links)])
  }

  function Freed(T: Tables, i: nat): Tables
    requires i < |T.taken|
  {
    T.(taken := T.taken[i := false])
  }

  /** The effect of a whole call. */
  function Apply(T: Tables, c: Commit): (r: Tables)
    requires |T.counts| == |T.taken|
    ensures |r.counts| == |r.taken| == |T.taken|
  {
    match c.request
    case ReqOpen(n, creat) => if creat && Find(T.dir, n) < 0 then Created(T, n, File, true) else T
    case ReqSymLink(target, n) =>
      if Find(T.dir, target) == -1 || Find(T.dir, n) != -1 then T else Created(T, n, Link, c.block)
    case ReqLink(target, n) =>
      var i := Find(T.dir, target);
      if !(0 <= i < |T.counts|) || Find(T.dir, n) != -1 || T.counts[i].kind == Link then T
      else (
        match Add(T.dir, n, i)
        case None => T
        case Some(d) => Relinked(T.(dir := d), i, T.counts[i].links + 1))
    case ReqUnlink(n) =>
      var i := Find(T.dir, n);
      if !(ROOT < i < |T.counts|) || (T.counts[i].kind != Link && c.busy) then T
      else (
        match Clear(T.dir, n)
        case None => T
        case Some(d) => Dropped(T.(dir := d), i))
    case _ => T
  }

  /** One name less: the inode goes with its last name. */
  function Dropped(T: Tables, i: nat): Tables
    requires i < |T.counts| == |T.taken|
  {
    if T.counts[i].links == 1 then Freed(T, i) else Relinked(T, i, LessOne(T.counts[i].links))
  }

  function Replay(T: Tables, log: seq<Commit>): (r: Tables)
    requires |T.counts| == |T.taken|
    ensures |r.counts| == |r.taken| == |T.taken|
  {
    if log == [] then T else Apply(Replay(T, log[..|log| - 1]), log[|log| - 1])
  }

  // ---------------------------------------------------------------- the journal

  /** The call that a lookup under the root lock begins. */
  function RequestOf(op: TableAccess): Request {
    match op
    case OpenLookup(n, creat) => ReqOpen(n, creat)
    case SymLookup(target, n) => ReqSymLink(target, n)
    case HardLookup(target, n) => ReqLink(target, n)
    case UnlinkLookup(n) => ReqUnlink(n)
    case _ => ReqClose(0)
  }

  /** The interleaved system, the calls that have released the root lock, and the one that holds it. */
  datatype Journal = Journal(s: System, log: seq<Commit>, draft: Commit)

  function Noted(draft: Commit, sh: Shared, op: TableAccess, ch: Choice): Commit
    requires |sh.handles| == |sh.handleTaken|
  {
    match op
    case LinkBlock(_, _) => draft.(block := ch.yes)
    case UnlinkOpen(_, i) => draft.(busy := OpenNow(sh, i))
    case _ => draft
  }

  /** What a step of a thread adds to the journal. */
  function Entry(sh: Shared, k: Script, ch: Choice, log: seq<Commit>, draft: Commit): (seq<Commit>, Commit)
    requires |sh.handles| == |sh.handleTaken|
  {
    match k
    case Acquire(l, _, next) =>
      (log, if l == ROOT_LOCK && next.Do? then Commit(RequestOf(next.op), true, false) else draft)
    case Release(l, _) => (if l == ROOT_LOCK then log + [draft] else log, draft)
    case Do(op) => (log, Noted(draft, sh, op, ch))
    case Return => (log, draft)
  }

  ghost function ActJournal(j: Journal, a: Action): Journal
    requires Good(j.s)
  {
    var s' := Act(j.s, a);
    if a.Step? && Enabled(j.s, a.t) then
      var (log, draft) := Entry(j.s.sh, j.s.threads[a.t].script, a.choice, j.log, j.draft);
      Journal(s', log, draft)
    else Journal(s', j.log, j.draft)
  }
}
