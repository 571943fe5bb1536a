/**
 The bounded producer-consumer queue (producer-consumer/pcqueue.c) as a transition system: one step per lock,
 unlock, test, update, park and broadcast, for any number of threads. A mutex is held by the threads whose
 program point lies between its lock and its unlock.
 */
module PcQueue {
  import opened Bytes
  import opened LockOrder

  /** A queued pointer. */
  type Elem = int

  datatype Call = Push(x: Elem) | Pop

  /** Program points; both operations have the same shape (pcqueue.c:43-66 and 68-89). */
  datatype Point =
    | Start       // about to lock the condition variable's mutex
    | WantSize    // about to lock the size
    | Test        // while condition
    | Drop        // about to unlock the size before waiting
    | Wait        // about to park, releasing the condition variable's mutex
    | Parked
    | Woken       // about to lock the condition variable's mutex again
    | WantIndex   // about to lock head or tail
    | Count       // size++ or size--
    | Move        // copy the element
    | Advance     // move head or tail
    | UnlockIndex
    | UnlockSize
    | UnlockCond
    | Broadcast

  /** A call in progress: `start` is the log length at its invocation, `lin` the position of its own event. */
  datatype Thread = Thread(call: Call, point: Point, start: nat, lin: nat, elem: Option<Elem>)

  datatype Event = Enq(t: nat, x: Elem) | Deq(t: nat, x: Elem)

  /** A call that has returned; `end` is the log length at its return. */
  datatype Response = Response(t: nat, call: Call, elem: Option<Elem>, start: nat, lin: nat, end: nat)

  /** The queue's fields, with the log of the effects and the calls that have returned. */
  datatype Queue = Queue(buf: seq<Elem>, size: int, head: nat, tail: nat, log: seq<Event>, done: seq<Response>)

  datatype State = State(sh: Queue, threads: map<nat, Thread>)

  // ---------------------------------------------------------------- locks

  const SIZE_LOCK := Lock(1, 0)

  function CondLock(c: Call): Lock {
    if c.Push? then Lock(0, 0) else Lock(0, 1)
  }

  function IndexLock(c: Call): Lock {
    if c.Push? then Lock(2, 0) else Lock(2, 1)
  }

  predicate HoldsCond(p: Point) {
    p != Start && p != Parked && p != Woken && p != Broadcast
  }

  predicate HoldsSize(p: Point) {
    HoldsCond(p) && p != WantSize && p != Wait && p != UnlockCond
  }

  predicate HoldsIndex(p: Point) {
    p == Count || p == Move || p == Advance || p == UnlockIndex
  }

  function Held(th: Thread): map<Lock, Access> {
    if HoldsIndex(th.point) then map[CondLock(th.call) := Writer, SIZE_LOCK := Writer, IndexLock(th.call) := Writer]
    else if HoldsSize(th.point) then map[CondLock(th.call) := Writer, SIZE_LOCK := Writer]
    else if HoldsCond(th.point) then map[CondLock(th.call) := Writer]
    else map[]
  }

  function Wants(th: Thread): Option<(Lock, Access)> {
    match th.point
    case Start => Some((CondLock(th.call), Writer))
    case Woken => Some((CondLock(th.call), Writer))
    case WantSize => Some((SIZE_LOCK, Writer))
    case WantIndex => Some((IndexLock(th.call), Writer))
    case _ => None
  }

  function ViewOf(th: Thread): View {
    View(Held(th), Wants(th))
  }

  /** The threads that are not parked on a condition variable. */
  function ViewsOf(s: State): Views {
    map t | t in s.threads && s.threads[t].point != Parked :: ViewOf(s.threads[t])
  }

  /** The call is not parked and the mutex it is about to lock, if any, is free. */
  ghost predicate Enabled(s: State, t: nat) {
    t in s.threads && s.threads[t].point != Parked && Runnable(ViewsOf(s), t)
  }

  // ---------------------------------------------------------------- steps

  predicate Blocked(sh: Queue, c: Call) {
    if c.Push? then sh.size == |sh.buf| else sh.size == 0
  }

  function EventOf(t: nat, c: Call, elem: Option<Elem>): Option<Event> {
    match c
    case Push(x) => Some(Enq(t, x))
    case Pop => if elem.Some? then Some(Deq(t, elem.value)) else None
  }

  /** The point after this one, unless the test or the return decides. */
  function Succ(p: Point): Point {
    match p
    case Start => WantSize
    case WantSize => Test
    case Drop => Wait
    case Wait => Parked
    case Woken => WantSize
    case WantIndex => Count
    case Count => Move
    case Move => Advance
    case Advance => UnlockIndex
    case UnlockIndex => UnlockSize
    case UnlockSize => UnlockCond
    case _ => Broadcast
  }

  ghost predicate Bounds(sh: Queue) {
    0 < |sh.buf| && sh.head < |sh.buf| && sh.tail < |sh.buf|
  }

  /** `i % n` for an index that is at most one turn ahead; `WrapIsMod` connects the two. */
  function Wrap(i: nat, n: nat): nat
    requires i < 2 * n
  {
    if i < n then i else i - n
  }

  lemma WrapIsMod(i: nat, n: nat)
    requires i < 2 * n
    ensures Wrap(i, n) == i % n
  {
    if i < n {
      assert i % n == i;
    } else {
      assert (i - n) % n == i - n;
      assert i % n == (i - n) % n;
    }
  }

  /** One step of thread `t` on the queue's fields. */
  function Update(sh: Queue, t: nat, th: Thread): (r: (Queue, Thread))
    requires Bounds(sh)
    ensures Bounds(r.0)
  {
    var th' := th.(point := Succ(th.point));
    match th.point
    case Test => (sh, th.(point := if Blocked(sh, th.call) then Drop else WantIndex))
    case Count => (sh.(size := if th.call.Push? then sh.size + 1 else sh.size - 1), th')
    case Move =>
      if th.call.Push? then (sh.(buf := sh.buf[sh.head := th.call.x]), th')
      else (sh, th'.(elem := Some(sh.buf[sh.tail])))
    case Advance =>
      var e := EventOf(t, th.call, th.elem);
      var log := if e.Some? then sh.log + [e.value] else sh.log;
      (if th.call.Push? then sh.(head := Wrap(sh.head + 1, |sh.buf|), log := log)
       else sh.(tail := Wrap(sh.tail + 1, |sh.buf|), log := log),
       th'.(lin := |sh.log|))
    case _ => (sh, th')
  }

  /** A broadcast wakes every thread parked in the other operation. */
  function WakeAll(threads: map<nat, Thread>, c: Call): map<nat, Thread> {
    map t | t in threads ::
      if threads[t].point == Parked && threads[t].call.Push? != c.Push? then threads[t].(point := Woken) else threads[t]
  }

  function StepOf(s: State, t: nat): State
    requires t in s.threads && Bounds(s.sh)
  {
    var th := s.threads[t];
    if th.point == Broadcast then
      State(s.sh.(done := s.sh.done + [Response(t, th.call, th.elem, th.start, th.lin, |s.sh.log|)]),
            WakeAll(s.threads - {t}, th.call))
    else
      var (sh, th') := Update(s.sh, t, th);
      State(sh, s.threads[t := th'])
  }

  datatype Action = Invoke(t: nat, call: Call) | Step(t: nat) | Spurious(t: nat)

  /** Actions that cannot happen leave the state alone; a parked thread may wake spuriously. */
  ghost function Act(s: State, a: Action): State
    requires Bounds(s.sh)
  {
    match a
    case Invoke(t, call) =>
      if t in s.threads then s
      else s.(threads := s.threads[t := Thread(call, Start, |s.sh.log|, 0, None)])
    case Step(t) => if Enabled(s, t) then StepOf(s, t) else s
    case Spurious(t) =>
      if t in s.threads && s.threads[t].point == Parked
      then s.(threads := s.threads[t := s.threads[t].(point := Woken)])
      else s
  }

  /** `pcq_create` with a buffer of the given capacity. */
  function Create(buf: seq<Elem>): State {
    State(Queue(buf, 0, 0, 0, [], []), map[])
  }

  // ---------------------------------------------------------------- the sequential bounded queue

  /** What a bounded FIFO holds after a log of effects, if the log is one of its histories. */
  function Replay(log: seq<Event>, cap: nat): Option<seq<Elem>> {
    if log == [] then Some([])
    else
      match Replay(log[..|log| - 1], cap)
      case None => None
      case Some(q) =>
        match log[|log| - 1]
        case Enq(_, x) => if |q| < cap then Some(q + [x]) else None
        case Deq(_, x) => if q != [] && q[0] == x then Some(q[1..]) else None
  }

  /** The ring from `tail`. */
  function Ring(buf: seq<Elem>, tail: nat, n: nat): (r: seq<Elem>)
    requires tail < |buf| && n <= |buf|
    ensures |r| == n
    ensures forall k :: 0 <= k < n ==> r[k] == buf[Wrap(tail + k, |buf|)]
  {
    seq(n, k requires 0 <= k < n => buf[Wrap(tail + k, |buf|)])
  }
}
