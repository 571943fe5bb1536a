/** What the calls do to the open-file table, and which locks keep their accesses apart. */
module LockProtocolOutcomes {
  import opened Bytes
  import opened Directory
  import opened LockOrder
  import opened Tfs
  import opened LockProtocol
  import opened LockProtocolProofs

  // ---------------------------------------------------------------- mutual exclusion

  /** In every interleaving a lock held for writing is held by nobody else. */
  lemma WritersExclude(s: System, acts: seq<Action>, t: nat, u: nat, l: Lock)
    requires Formatted(s) && t != u
    ensures LockProtocolProofs.Inv(s)
    ensures var r := Run(s, acts);
            t in r.threads && u in r.threads && l in HeldMap(r.threads[t].held) && l in HeldMap(r.threads[u].held) ==>
              HeldMap(r.threads[t].held)[l] == Reader && HeldMap(r.threads[u].held)[l] == Reader
  {
    FormattedInv(s);
  }

  /** A thread can step unless the lock it wants is held by another, for writing or against its own wish to write. */
  lemma WaitsExactly(s: System, t: nat)
    requires t in s.threads
    ensures Enabled(s, t) <==>
            forall u :: u in s.threads && u != t && s.threads[t].script.Acquire?
                        && s.threads[t].script.lock in HeldMap(s.threads[u].held) ==>
              s.threads[t].script.access == Reader && HeldMap(s.threads[u].held)[s.threads[t].script.lock] == Reader
  {
    var vs := ViewsOf(s);
    if Enabled(s, t) {
      forall u | u in s.threads && u != t && s.threads[t].script.Acquire?
                 && s.threads[t].script.lock in HeldMap(s.threads[u].held)
        ensures s.threads[t].script.access == Reader
        ensures HeldMap(s.threads[u].held)[s.threads[t].script.lock] == Reader
      {
        assert !WaitsFor(vs, t, u);
      }
    }
  }

  // ---------------------------------------------------------------- data races

  /** The parts of the shared state; a handle's inumber and its cursor are apart. */
  datatype Part =
    | Entries | InodeVector | LinksOf(i: nat) | SizeOf(i: nat) | HandleVector | FileOf(h: nat) | CursorOf(h: nat)

  /** What an access reads; the size of an inode that has no name yet, or no longer, is left to its creator. */
  predicate Reads(op: TableAccess, p: Part) {
    match p
    case Entries =>
      || op.OpenLookup? || op.SymLookup? || op.HardLookup? || op.UnlinkLookup?
      || op.AddEntry? || op.HardEntry? || op.UnlinkClear?
    case InodeVector => op.TakeInode? || op.UndoInode? || op.UndoFree? || op.UnlinkDelete? || op.UnlinkFree?
    case LinksOf(i) => (op.HardCount? || op.UnlinkCount? || op.InitInode?) && op.i == i
    case SizeOf(i) => (op.OpenInode? || op.IoInode? || op.UnlinkDelete?) && op.i == i
    case HandleVector => op.FindHandle? || op.UnlinkOpen? || op.CloseHandle?
    case FileOf(h) => op.UnlinkOpen? || ((op.IoHandle? || op.SetHandle?) && op.h == h)
    case CursorOf(h) => (op.IoInode? || op.SetHandle?) && op.h == h
  }

  predicate Writes(op: TableAccess, p: Part) {
    match p
    case Entries => op.AddEntry? || op.HardEntry? || op.UnlinkClear?
    case InodeVector => op.TakeInode? || op.UndoFree? || op.UnlinkFree?
    case LinksOf(i) => (op.HardCount? || op.UnlinkCount? || op.InitInode?) && op.i == i
    case SizeOf(i) => (op.OpenInode? || (op.IoInode? && op.write)) && op.i == i
    case HandleVector => op.FindHandle? || op.CloseHandle?
    case FileOf(h) => op.SetHandle? && op.h == h
    case CursorOf(h) => (op.IoInode? || op.SetHandle?) && op.h == h
  }

  /** The lock that guards each part. */
  function Guard(p: Part): Lock {
    match p
    case Entries => ROOT_LOCK
    case InodeVector => INODE_TABLE
    case LinksOf(_) => ROOT_LOCK
    case SizeOf(i) => InodeLock(i)
    case HandleVector => OPEN_TABLE
    case FileOf(h) => HandleLock(h)
    case CursorOf(h) => HandleLock(h)
  }

  lemma Guarded(op: TableAccess, p: Part)
    requires Reads(op, p) && !(p.FileOf? && op.UnlinkOpen?)
    ensures Guard(p) in HeldMap(Locks(op))
    ensures Writes(op, p) ==> HeldMap(Locks(op))[Guard(p)] == Writer
  {
    assert HeldMap(UNDER_ROOT) == map[ROOT_LOCK := Writer];
    assert forall l :: HeldMap(UnderRootAnd(l)) == HeldMap(UNDER_ROOT)[l := Writer];
  }

  lemma TableGuards(n: Name, i: nat, h: nat, j: nat)
    ensures HeldMap(Locks(UnlinkOpen(n, i)))[OPEN_TABLE] == Reader
    ensures OPEN_TABLE in HeldMap(Locks(SetHandle(h, j))) && HeldMap(Locks(SetHandle(h, j)))[OPEN_TABLE] == Writer
  {
    assert HeldMap(Push(OPEN_TABLE, Writer, Empty)) == map[OPEN_TABLE := Writer];
  }

  /** Two accesses to the same part, one of them a write, are made under a lock that keeps them apart. */
  lemma KeptApart(op: TableAccess, other: TableAccess, p: Part) returns (l: Lock)
    requires Reads(op, p) && Writes(other, p)
    ensures l in HeldMap(Locks(op)) && l in HeldMap(Locks(other)) && HeldMap(Locks(other))[l] == Writer
  {
    if p.FileOf? && op.UnlinkOpen? {
      l := OPEN_TABLE;
      TableGuards(op.n, op.i, other.h, other.i);
    } else {
      l := Guard(p);
      Guarded(op, p);
      Guarded(other, p);
    }
  }

  /**
   No data race: in every interleaving two threads are never about to access the same part of the shared state, one
   of them to write it.
   */
  lemma RaceFree(s: System, acts: seq<Action>, t: nat, u: nat, p: Part)
    requires Formatted(s) && t != u
    ensures LockProtocolProofs.Inv(s)
    ensures var r := Run(s, acts);
            t in r.threads && u in r.threads && r.threads[t].script.Do? && r.threads[u].script.Do? ==>
              !(Reads(r.threads[t].script.op, p) && Writes(r.threads[u].script.op, p))
  {
    FormattedInv(s);
    var r := Run(s, acts);
    if t in r.threads && u in r.threads && r.threads[t].script.Do? && r.threads[u].script.Do?
       && Reads(r.threads[t].script.op, p) && Writes(r.threads[u].script.op, p)
    {
      ReturnsUnlocked(s, acts, t);
      ReturnsUnlocked(s, acts, u);
      var l := KeptApart(r.threads[t].script.op, r.threads[u].script.op, p);
      WritersExclude(s, acts, t, u, l);
    }
  }

  // ---------------------------------------------------------------- the open-file table

  /** The access or the return that a script comes to once its locks are taken and released. */
  function NextStop(k: Script): Script {
    match k
    case Acquire(_, _, next) => NextStop(next)
    case Release(_, next) => NextStop(next)
    case _ => k
  }

  ghost predicate OpenIn(sh: Shared, i: nat)
    requires |sh.handles| == |sh.handleTaken|
  {
    exists h :: 0 <= h < |sh.handles| && sh.handleTaken[h] && sh.handles[h] == Some(i)
  }

  /** The unlink of a file goes on to clear its entry exactly when no TAKEN handle is set to its inode. */
  lemma UnlinkTestsHandles(sh: Shared, n: Name, i: nat, ch: Choice)
    requires ShapeOk(sh) && OpOk(sh, UnlinkOpen(n, i))
    ensures Exec(sh, UnlinkOpen(n, i), ch).0 == sh
    ensures NextStop(Exec(sh, UnlinkOpen(n, i), ch).1) == if OpenIn(sh, i) then Return else Do(UnlinkClear(n, i))
  {
  }

  /** The handles after a call has registered the file, alone from its entry into the table. */
  ghost predicate Registers(sh: Shared, sh': Shared, i: nat) {
    if forall h :: 0 <= h < |sh.handleTaken| ==> sh.handleTaken[h] then sh' == sh
    else
      exists h :: 0 <= h < |sh.handleTaken| == |sh.handles| && !sh.handleTaken[h]
                  && sh' == sh.(handleTaken := sh.handleTaken[h := true], handles := sh.handles[h := Some(i)])
  }

  /** Registration takes a FREE handle and sets it to the file, or finds none; then the call returns. */
  lemma RegisterOutcome(sh: Shared, i: nat, ch: Choice)
    requires ShapeOk(sh) && InodeOk(sh, i)
    ensures NextStop(RegisterScript(i)) == Do(FindHandle(i))
    ensures var (sh1, k1) := Exec(sh, FindHandle(i), ch);
            && (NextStop(k1) == Return ==> Registers(sh, sh1, i))
            && (NextStop(k1) != Return ==>
                  && NextStop(k1).Do? && ShapeOk(sh1) && OpOk(sh1, NextStop(k1).op)
                  && var (sh2, k2) := Exec(sh1, NextStop(k1).op, ch);
                     NextStop(k2) == Return && Registers(sh, sh2, i))
  {
    var h := FirstFree(sh.handleTaken);
    if h < |sh.handleTaken| { assert !sh.handleTaken[h]; }
  }

  /** An open comes to the inode of the file it names, and then registers that file or follows that link. */
  lemma OpenGoesOn(sh: Shared, n: Name, creat: bool, ch: Choice)
    requires ShapeOk(sh) && NulFree(n) && Exact(sh) && n in NameMap(sh.dir)
    ensures var i := NameMap(sh.dir)[n];
            && InodeOk(sh, i)
            && Exec(sh, OpenLookup(n, creat), ch).0 == sh
            && NextStop(Exec(sh, OpenLookup(n, creat), ch).1) == Do(OpenInode(i, creat))
            && Exec(sh, OpenInode(i, creat), ch).0 == sh
            && (sh.inodes[i].kind != Link ==>
                  NextStop(Exec(sh, OpenInode(i, creat), ch).1) == Do(FindHandle(i)))
            && (sh.inodes[i].kind == Link && creat ==> NextStop(Exec(sh, OpenInode(i, creat), ch).1) == Return)
            && (sh.inodes[i].kind == Link && !creat && NulFree(ch.name) ==>
                  NextStop(Exec(sh, OpenInode(i, creat), ch).1) == Do(OpenLookup(ch.name, false)))
  {
    FindIffNamed(sh.dir, n);
    NamedIsLive(sh, n);
    var i := NameMap(sh.dir)[n];
    StopsAt(i, InodeLock(i), ch.name);
    assert NextStop(Acquire(InodeLock(i), Writer, Do(OpenInode(i, creat)))) == Do(OpenInode(i, creat));
  }

  lemma StopsAt(i: nat, l: Lock, n: Name)
    ensures NextStop(Release(l, RegisterScript(i))) == Do(FindHandle(i))
    ensures NextStop(Release(l, OpenScript(n, false))) == Do(OpenLookup(n, false))
  {
    assert NextStop(RegisterScript(i)) == NextStop(Do(FindHandle(i)));
    assert NextStop(OpenScript(n, false)) == NextStop(Do(OpenLookup(n, false)));
  }

  /** A file that has just been given its name is registered; a link is not. */
  lemma CreatedGoesOn(sh: Shared, n: Name, kind: Kind, i: nat, ch: Choice)
    requires ShapeOk(sh) && OpOk(sh, AddEntry(n, kind, i))
    ensures Add(sh.dir, n, i).Some? ==>
              NextStop(Exec(sh, AddEntry(n, kind, i), ch).1) == if kind == Link then Return else Do(FindHandle(i))
    ensures Add(sh.dir, n, i).None? ==> NextStop(Exec(sh, AddEntry(n, kind, i), ch).1) == Do(UndoInode(i))
  {
    StopsAt(i, ROOT_LOCK, n);
  }

  /** A read or write locks the inode its handle is set to, for reading or for writing, and returns. */
  lemma IoOutcome(sh: Shared, h: nat, write: bool, ch: Choice)
    requires ShapeOk(sh) && OpOk(sh, IoHandle(h, write))
    ensures var i := sh.handles[h].value; var (sh1, k1) := Exec(sh, IoHandle(h, write), ch);
            && sh1 == sh && k1 == Acquire(InodeLock(i), if write then Writer else Reader, Do(IoInode(h, i, write)))
            && OpOk(sh, IoInode(h, i, write))
            && Exec(sh, IoInode(h, i, write), ch).0 == sh && NextStop(Exec(sh, IoInode(h, i, write), ch).1) == Return
  {
    var i := sh.handles[h].value;
    assert NextStop(LeaveIo(h, i)) == NextStop(Release(HandleLock(h), Return)) == Return;
  }

  /** A close frees its handle and returns. */
  lemma CloseOutcome(sh: Shared, h: nat, ch: Choice)
    requires ShapeOk(sh) && OpOk(sh, CloseHandle(h))
    ensures var (sh', k) := Exec(sh, CloseHandle(h), ch);
            && !sh'.handleTaken[h] && sh' == sh.(handleTaken := sh'.handleTaken) && NextStop(k) == Return
            && (forall g :: 0 <= g < |sh.handleTaken| && g != h ==> sh'.handleTaken[g] == sh.handleTaken[g])
  {
  }

  /** Every call begins with its own access. */
  lemma BeginsWithItself(r: Request)
    ensures NextStop(Begin(r)) ==
            match r
            case ReqOpen(n, creat) => Do(OpenLookup(n, creat))
            case ReqSymLink(target, n) => Do(SymLookup(target, n))
            case ReqLink(target, n) => Do(HardLookup(target, n))
            case ReqUnlink(n) => Do(UnlinkLookup(n))
            case ReqIo(h, write) => Do(IoHandle(h, write))
            case ReqClose(h) => Do(CloseHandle(h))
  {
  }

  // ---------------------------------------------------------------- steps of the system

  /** A call is admitted under a new thread, holding nothing, if its handle has been set and its names are C strings. */
  lemma InvokeOutcome(s: System, t: nat, r: Request)
    requires Good(s) && t !in s.threads
    requires match r
             case ReqOpen(n, _) => NulFree(n)
             case ReqSymLink(_, n) => NulFree(n)
             case ReqLink(_, n) => NulFree(n)
             case ReqUnlink(_) => true
             case ReqIo(h, _) => h < |s.sh.handles| && s.sh.handles[h].Some?
             case ReqClose(h) => h < |s.sh.handles|
    ensures Act(s, Invoke(t, r)) == System(s.sh, s.threads[t := Thread(Empty, Begin(r))])
  {
    var k := Begin(r);
    assert k.Acquire? && ScriptOk(s.sh, k.next);
  }

  /** A thread that can step takes its lock, gives its top lock back, makes its access, or leaves after its return. */
  lemma StepOutcome(s: System, t: nat, ch: Choice)
    requires LockProtocolProofs.Inv(s) && Good(s) && Enabled(s, t)
    ensures var s', th := Act(s, Step(t, ch)), s.threads[t];
            match th.script
            case Acquire(l, a, k) => s' == System(s.sh, s.threads[t := Thread(Push(l, a, th.held), k)])
            case Release(l, k) =>
              th.held.Push? && th.held.lock == l && s' == System(s.sh, s.threads[t := Thread(th.held.below, k)])
            case Do(op) => s' == System(Exec(s.sh, op, ch).0, s.threads[t := Thread(th.held, Exec(s.sh, op, ch).1)])
            case Return => s' == System(s.sh, s.threads - {t})
  {
    assert ThreadInv(s.sh, s.threads[t]);
  }
}
