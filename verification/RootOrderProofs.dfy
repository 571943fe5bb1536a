/** In every interleaving the tables are what the same calls leave one after another, in root-lock order. */
module RootOrderProofs {
  import opened Bytes
  import opened Directory
  import opened LockOrder
  import opened Tfs
  import opened LockProtocol
  import opened LockProtocolProofs
  import opened RootOrder

  // ---------------------------------------------------------------- what is still to come

  /** The call may create this name, of this kind, on the tables it found. */
  ghost predicate Creating(T: Tables, r: Request, n: Name, kind: Kind) {
    && Find(T.dir, n) == -1
    && (kind == File ==> r == ReqOpen(n, true))
    && (kind == Link ==> r.ReqSymLink? && r.n == n && Find(T.dir, r.target) != -1)
    && kind != Directory
  }

  ghost predicate Taken(T: Tables, i: nat) {
    i == FirstFree(T.taken) < |T.taken| == |T.counts|
  }

  /** How far the call that began on `T` and is to leave `goal` has come when it makes an access. */
  ghost predicate OnTheWay(T: Tables, goal: Tables, sh: Shared, draft: Commit, op: TableAccess) {
    var now, r := TablesOf(sh), draft.request;
    match op
    case TakeInode(n, kind) => now == T && Creating(T, r, n, kind) && draft.block
    case InitInode(n, kind, i) =>
      Creating(T, r, n, kind) && draft.block && Taken(T, i) && now == T.(taken := T.taken[i := true])
    case LinkBlock(n, i) =>
      && Creating(T, r, n, Link) && Taken(T, i)
      && now == T.(taken := T.taken[i := true], counts := T.counts[i := Count(Link, 1)])
    case AddEntry(n, kind, i) =>
      && Creating(T, r, n, kind) && draft.block && Taken(T, i)
      && now == T.(taken := T.taken[i := true], counts := T.counts[i := Count(kind, 1)])
    case UndoInode(i) => i < |now.taken| && goal == Freed(now, i)
    case UndoFree(i) => i < |now.taken| && goal == Freed(now, i)
    case HardEntry(n, i) => now == T && r.ReqLink? && r.n == n && Find(T.dir, r.target) == i && Find(T.dir, n) == -1
    case HardCount(i) => i < |now.counts| && goal == Relinked(now, i, now.counts[i].links + 1)
    case UnlinkOpen(n, i) =>
      && now == T && r == ReqUnlink(n) && Find(T.dir, n) == i && ROOT < i < |T.counts|
      && T.counts[i].kind != Link
    case UnlinkClear(n, i) =>
      && now == T && r == ReqUnlink(n) && Find(T.dir, n) == i && ROOT < i < |T.counts|
      && (T.counts[i].kind == Link || !draft.busy)
    case UnlinkCount(i) => i < |now.counts| == |now.taken| && goal == Dropped(now, i)
    case UnlinkDelete(i) => i < |now.taken| && goal == Freed(now, i)
    case UnlinkFree(i) => i < |now.taken| && goal == Freed(now, i)
    case _ => now == T && r == RequestOf(op) && draft.block && !draft.busy
  }

  /** The same along a script: when the root lock is released the call has had its whole effect. */
  ghost predicate Commits(T: Tables, goal: Tables, sh: Shared, draft: Commit, k: Script) {
    match k
    case Acquire(_, _, next) => Commits(T, goal, sh, draft, next)
    case Release(l, next) => if l == ROOT_LOCK then goal == TablesOf(sh) else Commits(T, goal, sh, draft, next)
    case Do(op) => OnTheWay(T, goal, sh, draft, op)
    case Return => true
  }

  // ---------------------------------------------------------------- one access

  lemma OpenCommits(T: Tables, goal: Tables, sh: Shared, draft: Commit, op: TableAccess, ch: Choice)
    requires ShapeOk(sh) && OpOk(sh, op) && OnTheWay(T, goal, sh, draft, op)
    requires |T.counts| == |T.taken| && goal == Apply(T, Noted(draft, sh, op, ch))
    requires (op.OpenLookup? && Exact(sh)) || op.SymLookup?
    ensures var (sh', k) := Exec(sh, op, ch); Commits(T, goal, sh', Noted(draft, sh, op, ch), k)
  {
    if op.OpenLookup? && Find(sh.dir, op.n) != -1 { NamedIsLive(sh, op.n); }
  }

  lemma HardLookupCommits(T: Tables, goal: Tables, sh: Shared, draft: Commit, op: TableAccess, ch: Choice)
    requires ShapeOk(sh) && OpOk(sh, op) && OnTheWay(T, goal, sh, draft, op)
    requires |T.counts| == |T.taken| && goal == Apply(T, Noted(draft, sh, op, ch))
    requires op.HardLookup? && Exact(sh)
    ensures var (sh', k) := Exec(sh, op, ch); Commits(T, goal, sh', Noted(draft, sh, op, ch), k)
  {
    if Find(sh.dir, op.target) != -1 { NamedIsLive(sh, op.target); }
  }

  lemma UnlinkLookupCommits(T: Tables, goal: Tables, sh: Shared, draft: Commit, op: TableAccess, ch: Choice)
    requires ShapeOk(sh) && OpOk(sh, op) && OnTheWay(T, goal, sh, draft, op)
    requires |T.counts| == |T.taken| && goal == Apply(T, Noted(draft, sh, op, ch))
    requires op.UnlinkLookup?
    ensures var (sh', k) := Exec(sh, op, ch); Commits(T, goal, sh', Noted(draft, sh, op, ch), k)
  {
  }

  lemma AllocCommits(T: Tables, goal: Tables, sh: Shared, draft: Commit, op: TableAccess, ch: Choice)
    requires ShapeOk(sh) && OpOk(sh, op) && OnTheWay(T, goal, sh, draft, op)
    requires |T.counts| == |T.taken| && goal == Apply(T, Noted(draft, sh, op, ch))
    requires op.TakeInode? || op.InitInode?
    ensures var (sh', k) := Exec(sh, op, ch); Commits(T, goal, sh', Noted(draft, sh, op, ch), k)
  {
    if op.InitInode? { CountsUpdate(sh.inodes, op.i, Inode(op.kind, 1, 0, -1)); }
  }

  lemma AddCommits(T: Tables, goal: Tables, sh: Shared, draft: Commit, op: TableAccess, ch: Choice)
    requires ShapeOk(sh) && OpOk(sh, op) && OnTheWay(T, goal, sh, draft, op)
    requires |T.counts| == |T.taken| && goal == Apply(T, Noted(draft, sh, op, ch))
    requires op.LinkBlock? || op.AddEntry?
    ensures var (sh', k) := Exec(sh, op, ch); Commits(T, goal, sh', Noted(draft, sh, op, ch), k)
  {
    assert Freed(TablesOf(sh), op.i).taken == T.taken;
  }

  lemma UndoCommits(T: Tables, goal: Tables, sh: Shared, draft: Commit, op: TableAccess, ch: Choice)
    requires ShapeOk(sh) && OpOk(sh, op) && OnTheWay(T, goal, sh, draft, op)
    requires (op.UndoInode? && sh.taken[op.i]) || op.UndoFree?
    ensures var (sh', k) := Exec(sh, op, ch); Commits(T, goal, sh', Noted(draft, sh, op, ch), k)
  {
  }

  lemma HardEntryCommits(T: Tables, goal: Tables, sh: Shared, draft: Commit, op: TableAccess, ch: Choice)
    requires ShapeOk(sh) && OpOk(sh, op) && OnTheWay(T, goal, sh, draft, op)
    requires |T.counts| == |T.taken| && goal == Apply(T, Noted(draft, sh, op, ch))
    requires op.HardEntry?
    ensures var (sh', k) := Exec(sh, op, ch); Commits(T, goal, sh', Noted(draft, sh, op, ch), k)
  {
  }

  lemma HardCountCommits(T: Tables, goal: Tables, sh: Shared, draft: Commit, op: TableAccess, ch: Choice)
    requires ShapeOk(sh) && OpOk(sh, op) && OnTheWay(T, goal, sh, draft, op)
    requires op.HardCount?
    ensures var (sh', k) := Exec(sh, op, ch); Commits(T, goal, sh', Noted(draft, sh, op, ch), k)
  {
    CountsUpdate(sh.inodes, op.i, sh.inodes[op.i].(links := sh.inodes[op.i].links + 1));
  }

  lemma ClearCommits(T: Tables, goal: Tables, sh: Shared, draft: Commit, op: TableAccess, ch: Choice)
    requires ShapeOk(sh) && OpOk(sh, op) && OnTheWay(T, goal, sh, draft, op)
    requires |T.counts| == |T.taken| && goal == Apply(T, Noted(draft, sh, op, ch))
    requires op.UnlinkOpen? || op.UnlinkClear?
    ensures var (sh', k) := Exec(sh, op, ch); Commits(T, goal, sh', Noted(draft, sh, op, ch), k)
  {
  }

  lemma DropCommits(T: Tables, goal: Tables, sh: Shared, draft: Commit, op: TableAccess, ch: Choice)
    requires ShapeOk(sh) && OpOk(sh, op) && OnTheWay(T, goal, sh, draft, op)
    requires op.UnlinkCount?
    ensures var (sh', k) := Exec(sh, op, ch); Commits(T, goal, sh', Noted(draft, sh, op, ch), k)
  {
    CountsUpdate(sh.inodes, op.i, sh.inodes[op.i].(links := LessOne(sh.inodes[op.i].links)));
    assert TablesOf(sh).counts[op.i].links == sh.inodes[op.i].links;
  }

  lemma DeleteCommits(T: Tables, goal: Tables, sh: Shared, draft: Commit, op: TableAccess, ch: Choice)
    requires ShapeOk(sh) && OpOk(sh, op) && OnTheWay(T, goal, sh, draft, op)
    requires (op.UnlinkDelete? && sh.taken[op.i]) || op.UnlinkFree?
    ensures var (sh', k) := Exec(sh, op, ch); Commits(T, goal, sh', Noted(draft, sh, op, ch), k)
  {
  }

  lemma CreatesCommits(T: Tables, goal: Tables, sh: Shared, draft: Commit, op: TableAccess, ch: Choice)
    requires ShapeOk(sh) && OpOk(sh, op) && OnTheWay(T, goal, sh, draft, op)
    requires |T.counts| == |T.taken| && goal == Apply(T, Noted(draft, sh, op, ch))
    requires Creates(op) && (op.OpenLookup? ==> Exact(sh)) && (op.UndoInode? ==> sh.taken[op.i])
    ensures var (sh', k) := Exec(sh, op, ch); Commits(T, goal, sh', Noted(draft, sh, op, ch), k)
  {
    if op.OpenLookup? || op.SymLookup? { OpenCommits(T, goal, sh, draft, op, ch); }
    else if op.TakeInode? || op.InitInode? { AllocCommits(T, goal, sh, draft, op, ch); }
    else if op.LinkBlock? || op.AddEntry? { AddCommits(T, goal, sh, draft, op, ch); }
    else { UndoCommits(T, goal, sh, draft, op, ch); }
  }

  lemma LinksCommits(T: Tables, goal: Tables, sh: Shared, draft: Commit, op: TableAccess, ch: Choice)
    requires ShapeOk(sh) && OpOk(sh, op) && OnTheWay(T, goal, sh, draft, op)
    requires |T.counts| == |T.taken| && goal == Apply(T, Noted(draft, sh, op, ch))
    requires LockProtocolProofs.Links(op) && (op.HardLookup? ==> Exact(sh))
    ensures var (sh', k) := Exec(sh, op, ch); Commits(T, goal, sh', Noted(draft, sh, op, ch), k)
  {
    if op.HardLookup? { HardLookupCommits(T, goal, sh, draft, op, ch); }
    else if op.UnlinkLookup? { UnlinkLookupCommits(T, goal, sh, draft, op, ch); }
    else if op.HardEntry? { HardEntryCommits(T, goal, sh, draft, op, ch); }
    else if op.HardCount? { HardCountCommits(T, goal, sh, draft, op, ch); }
    else { ClearCommits(T, goal, sh, draft, op, ch); }
  }

  lemma RemovesCommits(T: Tables, goal: Tables, sh: Shared, draft: Commit, op: TableAccess, ch: Choice)
    requires ShapeOk(sh) && OpOk(sh, op) && OnTheWay(T, goal, sh, draft, op)
    requires |T.counts| == |T.taken| && goal == Apply(T, Noted(draft, sh, op, ch))
    requires Removes(op) && (op.UnlinkDelete? ==> sh.taken[op.i])
    ensures var (sh', k) := Exec(sh, op, ch); Commits(T, goal, sh', Noted(draft, sh, op, ch), k)
  {
    if op.UnlinkClear? { ClearCommits(T, goal, sh, draft, op, ch); }
    else if op.UnlinkCount? { DropCommits(T, goal, sh, draft, op, ch); }
    else { DeleteCommits(T, goal, sh, draft, op, ch); }
  }

  /** Every access under the root lock brings the call nearer to its whole effect. */
  lemma ExecCommits(T: Tables, sh: Shared, draft: Commit, op: TableAccess, ch: Choice)
    requires ShapeOk(sh) && OpOk(sh, op) && UsesRoot(op) && RootData(sh, op)
    requires |T.counts| == |T.taken| && OnTheWay(T, Apply(T, draft), sh, draft, op)
    ensures var (sh', k) := Exec(sh, op, ch); var draft' := Noted(draft, sh, op, ch);
            Commits(T, Apply(T, draft'), sh', draft', k)
  {
    var goal := Apply(T, Noted(draft, sh, op, ch));
    assert OnTheWay(T, goal, sh, draft, op);
    if Creates(op) {
      CreatesCommits(T, goal, sh, draft, op, ch);
    } else if LockProtocolProofs.Links(op) {
      LinksCommits(T, goal, sh, draft, op, ch);
    } else {
      RemovesCommits(T, goal, sh, draft, op, ch);
    }
  }

  // ---------------------------------------------------------------- one thread

  /** What a step of a thread does to tables and journal. */
  ghost predicate Journals(T: Tables, sh: Shared, th: Thread, log: seq<Commit>, draft: Commit,
                           sh': Shared, th': Thread, log': seq<Commit>, draft': Commit)
    requires |T.counts| == |T.taken|
  {
    && (HoldsRoot(th') ==> log' == log && Commits(T, Apply(T, draft'), sh', draft', th'.script))
    && (HoldsRoot(th) && !HoldsRoot(th') ==> log' == log + [draft] && TablesOf(sh') == Apply(T, draft))
    && (!HoldsRoot(th) ==> SameTables(sh, sh'))
    && (!HoldsRoot(th) && !HoldsRoot(th') ==> log' == log && draft' == draft)
  }

  lemma AcquireJournals(T: Tables, sh: Shared, th: Thread, log: seq<Commit>, draft: Commit, ch: Choice)
    requires ShapeOk(sh) && ThreadInv(sh, th) && |T.counts| == |T.taken| && th.script.Acquire?
    requires HoldsRoot(th) ==> Commits(T, Apply(T, draft), sh, draft, th.script)
    requires th.script.lock == ROOT_LOCK ==> TablesOf(sh) == T && !HoldsRoot(th)
    ensures var (sh', th') := StepThread(sh, th, ch); var (log', draft') := Entry(sh, th.script, ch, log, draft);
            Journals(T, sh, th, log, draft, sh', th', log', draft')
  {
  }

  lemma ReleaseJournals(T: Tables, sh: Shared, th: Thread, log: seq<Commit>, draft: Commit, ch: Choice)
    requires ShapeOk(sh) && ThreadInv(sh, th) && |T.counts| == |T.taken| && th.script.Release?
    requires HoldsRoot(th) ==> Commits(T, Apply(T, draft), sh, draft, th.script)
    ensures var (sh', th') := StepThread(sh, th, ch); var (log', draft') := Entry(sh, th.script, ch, log, draft);
            Journals(T, sh, th, log, draft, sh', th', log', draft')
  {
    PopHeld(th.held);
  }

  lemma DoJournals(T: Tables, sh: Shared, th: Thread, log: seq<Commit>, draft: Commit, ch: Choice)
    requires ShapeOk(sh) && ThreadInv(sh, th) && |T.counts| == |T.taken| && th.script.Do?
    requires HoldsRoot(th) ==> Commits(T, Apply(T, draft), sh, draft, th.script)
    ensures var (sh', th') := StepThread(sh, th, ch); var (log', draft') := Entry(sh, th.script, ch, log, draft);
            Journals(T, sh, th, log, draft, sh', th', log', draft')
  {
    var op := th.script.op;
    RootAccesses(op);
    if UsesRoot(op) {
      ExecCommits(T, sh, draft, op, ch);
    } else {
      HandlesShape(sh, op, ch);
    }
  }

  lemma ThreadJournals(T: Tables, sh: Shared, th: Thread, log: seq<Commit>, draft: Commit, ch: Choice)
    requires ShapeOk(sh) && ThreadInv(sh, th) && |T.counts| == |T.taken|
    requires HoldsRoot(th) ==> Commits(T, Apply(T, draft), sh, draft, th.script)
    requires th.script.Acquire? && th.script.lock == ROOT_LOCK ==> TablesOf(sh) == T && !HoldsRoot(th)
    ensures var (sh', th') := StepThread(sh, th, ch); var (log', draft') := Entry(sh, th.script, ch, log, draft);
            Journals(T, sh, th, log, draft, sh', th', log', draft')
  {
    match th.script
    case Acquire(_, _, _) => AcquireJournals(T, sh, th, log, draft, ch);
    case Release(_, _) => ReleaseJournals(T, sh, th, log, draft, ch);
    case Do(_) => DoJournals(T, sh, th, log, draft, ch);
    case Return =>
  }

  // ---------------------------------------------------------------- all threads

  ghost predicate HolderCommits(T: Tables, j: Journal)
    requires |T.counts| == |T.taken|
  {
    forall t :: t in j.s.threads && HoldsRoot(j.s.threads[t]) ==>
      Commits(T, Apply(T, j.draft), j.s.sh, j.draft, j.s.threads[t].script)
  }

  ghost predicate JournalInv(T0: Tables, j: Journal) {
    && |T0.counts| == |T0.taken| && LockProtocolProofs.Inv(j.s)
    && var T := Replay(T0, j.log);
       HolderCommits(T, j) && (RootFree(j.s) ==> TablesOf(j.s.sh) == T)
  }

  lemma {:induction false} SameTablesCommits(T: Tables, goal: Tables, sh: Shared, sh': Shared, draft: Commit, k: Script)
    requires TablesOf(sh') == TablesOf(sh) && Commits(T, goal, sh, draft, k)
    ensures Commits(T, goal, sh', draft, k)
  {
    match k
    case Acquire(_, _, next) => SameTablesCommits(T, goal, sh, sh', draft, next);
    case Release(l, next) => if l != ROOT_LOCK { SameTablesCommits(T, goal, sh, sh', draft, next); }
    case Do(op) =>
    case Return =>
  }

  lemma ReplayLast(T: Tables, log: seq<Commit>, c: Commit)
    requires |T.counts| == |T.taken|
    ensures Replay(T, log + [c]) == Apply(Replay(T, log), c)
  {
    assert (log + [c])[..|log|] == log;
  }

  /** The thread that stepped holds the root lock: nobody else does. */
  lemma FrameHolding(T: Tables, j: Journal, t: nat)
    requires |T.counts| == |T.taken| && LockProtocolProofs.Inv(j.s) && t in j.s.threads && HoldsRoot(j.s.threads[t])
    requires Commits(T, Apply(T, j.draft), j.s.sh, j.draft, j.s.threads[t].script)
    ensures HolderCommits(T, j) && !RootFree(j.s)
  {
    forall u | u in j.s.threads && HoldsRoot(j.s.threads[u]) ensures u == t {
      if u != t { OneRootHolder(j.s, u, t); }
    }
  }

  /** It has just released it: nobody holds it. */
  lemma FrameReleased(s: System, t: nat, s': System)
    requires LockProtocolProofs.Inv(s) && t in s.threads && HoldsRoot(s.threads[t])
    requires s'.threads.Keys == s.threads.Keys && (forall u :: u in s.threads && u != t ==>
        s'.threads[u] == s.threads[u])
    requires !HoldsRoot(s'.threads[t])
    ensures RootFree(s')
  {
    forall u | u in s'.threads ensures !HoldsRoot(s'.threads[u]) {
      if u != t { OneRootHolder(s, u, t); }
    }
  }

  /** It neither held nor took it: whoever holds it finds the tables as they were. */
  lemma FrameOutside(T: Tables, j: Journal, t: nat, sh': Shared, th': Thread)
    requires |T.counts| == |T.taken| && HolderCommits(T, j) && t in j.s.threads
    requires !HoldsRoot(j.s.threads[t]) && !HoldsRoot(th') && SameTables(j.s.sh, sh')
    requires RootFree(j.s) ==> TablesOf(j.s.sh) == T
    ensures var s' := System(sh', j.s.threads[t := th']);
            HolderCommits(T, j.(s := s')) && (RootFree(s') ==> TablesOf(sh') == T)
  {
    var s' := System(sh', j.s.threads[t := th']);
    forall u | u in s'.threads && HoldsRoot(s'.threads[u])
      ensures Commits(T, Apply(T, j.draft), sh', j.draft, s'.threads[u].script)
    {
      SameTablesCommits(T, Apply(T, j.draft), j.s.sh, sh', j.draft, s'.threads[u].script);
    }
    if RootFree(s') {
      forall u | u in j.s.threads ensures !HoldsRoot(j.s.threads[u]) {
        assert u in s'.threads;
      }
    }
  }

  lemma JournalFrame(T0: Tables, j: Journal, t: nat, sh': Shared, th': Thread, log': seq<Commit>, draft': Commit)
    requires JournalInv(T0, j) && t in j.s.threads && LockProtocolProofs.Inv(System(sh', j.s.threads[t := th']))
    requires Journals(Replay(T0, j.log), j.s.sh, j.s.threads[t], j.log, j.draft, sh', th', log', draft')
    ensures JournalInv(T0, Journal(System(sh', j.s.threads[t := th']), log', draft'))
  {
    var T, s' := Replay(T0, j.log), System(sh', j.s.threads[t := th']);
    if HoldsRoot(th') {
      FrameHolding(T, Journal(s', log', draft'), t);
    } else if HoldsRoot(j.s.threads[t]) {
      FrameReleased(j.s, t, s');
      ReplayLast(T0, j.log, j.draft);
    } else {
      FrameOutside(T, j, t, sh', th');
    }
  }

  lemma StepJournal(T0: Tables, j: Journal, t: nat, ch: Choice)
    requires JournalInv(T0, j) && Good(j.s) && Enabled(j.s, t) && j.s.threads[t] != Thread(Empty, Return)
    ensures JournalInv(T0, ActJournal(j, Step(t, ch)))
  {
    var s, th := j.s, j.s.threads[t];
    StepKeeps(s, t, ch);
    assert ThreadInv(s.sh, th);
    if th.script.Acquire? && th.script.lock == ROOT_LOCK { RootWasFree(s, t); }
    ThreadJournals(Replay(T0, j.log), s.sh, th, j.log, j.draft, ch);
    var (sh', th') := StepThread(s.sh, th, ch);
    var (log', draft') := Entry(s.sh, th.script, ch, j.log, j.draft);
    JournalFrame(T0, j, t, sh', th', log', draft');
  }

  /** A thread that holds nothing comes or goes. */
  lemma ThreadsJournal(T0: Tables, j: Journal, threads: map<nat, Thread>, t: nat)
    requires JournalInv(T0, j) && LockProtocolProofs.Inv(System(j.s.sh, threads))
    requires forall u :: u in threads && u != t ==> u in j.s.threads && threads[u] == j.s.threads[u]
    requires forall u :: u in j.s.threads && u != t ==> u in threads
    requires t in threads ==> threads[t].held == Empty
    requires t in j.s.threads ==> j.s.threads[t].held == Empty
    ensures JournalInv(T0, j.(s := System(j.s.sh, threads)))
  {
    if RootFree(System(j.s.sh, threads)) {
      forall u | u in j.s.threads ensures !HoldsRoot(j.s.threads[u]) {
        if u != t { assert u in threads; }
      }
    }
  }

  lemma InvokeJournal(T0: Tables, j: Journal, t: nat, r: Request)
    requires JournalInv(T0, j) && Good(j.s)
    ensures JournalInv(T0, ActJournal(j, Invoke(t, r)))
  {
    ActKeeps(j.s, Invoke(t, r));
    if t !in j.s.threads && ScriptOk(j.s.sh, Begin(r)) {
      ThreadsJournal(T0, j, j.s.threads[t := Thread(Empty, Begin(r))], t);
    }
  }

  lemma ReturnJournal(T0: Tables, j: Journal, t: nat, ch: Choice)
    requires JournalInv(T0, j) && Good(j.s) && Enabled(j.s, t) && j.s.threads[t] == Thread(Empty, Return)
    ensures JournalInv(T0, ActJournal(j, Step(t, ch)))
  {
    ActKeeps(j.s, Step(t, ch));
    ThreadsJournal(T0, j, j.s.threads - {t}, t);
  }

  lemma ActJournalKeeps(T0: Tables, j: Journal, a: Action)
    requires JournalInv(T0, j) && Good(j.s)
    ensures JournalInv(T0, ActJournal(j, a)) && ActJournal(j, a).s == Act(j.s, a)
  {
    match a
    case Invoke(t, r) => InvokeJournal(T0, j, t, r);
    case Step(t, ch) =>
      if Enabled(j.s, t) {
        if j.s.threads[t] == Thread(Empty, Return) {
          ReturnJournal(T0, j, t, ch);
        } else {
          StepJournal(T0, j, t, ch);
        }
      }
  }

  // ---------------------------------------------------------------- whole runs

  ghost function RunJournal(T0: Tables, j: Journal, acts: seq<Action>): (r: Journal)
    requires JournalInv(T0, j)
    ensures JournalInv(T0, r) && r.s == Run(j.s, acts)
    decreases |acts|
  {
    InvIsGood(j.s);
    if acts == [] then j
    else
      ActJournalKeeps(T0, j, acts[0]);
      ActKeeps(j.s, acts[0]);
      RunJournal(T0, ActJournal(j, acts[0]), acts[1..])
  }

  function Opening(s: System): Journal {
    Journal(s, [], Commit(ReqClose(0), true, false))
  }

  lemma OpeningInv(s: System)
    requires Formatted(s)
    ensures JournalInv(TablesOf(s.sh), Opening(s))
  {
    FormattedInv(s);
  }

  /**
   Serial order: in every interleaving, whenever no thread holds the root lock, directory, inode vector and link
   counts are what the calls that have released it leave when made one after another in that order.
   */
  lemma SerialOrder(s: System, acts: seq<Action>)
    requires Formatted(s)
    ensures LockProtocolProofs.Inv(s) && JournalInv(TablesOf(s.sh), Opening(s))
    ensures var j := RunJournal(TablesOf(s.sh), Opening(s), acts);
            && j.s == Run(s, acts)
            && (RootFree(j.s) ==> TablesOf(j.s.sh) == Replay(TablesOf(s.sh), j.log))
  {
    OpeningInv(s);
  }
}
