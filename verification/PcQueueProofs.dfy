/** The queue is a linearizable bounded FIFO in every interleaving, and its mutexes never block all threads. */
module PcQueueProofs {
  import opened Bytes
  import opened LockOrder
  import opened PcQueue

  // ---------------------------------------------------------------- ring arithmetic

  /** Writing behind the last element leaves the ring and extends it. */
  lemma RingPush(buf: seq<Elem>, tail: nat, n: nat, x: Elem)
    requires tail < |buf| && n < |buf|
    ensures var h := Wrap(tail + n, |buf|);
            && Ring(buf[h := x], tail, n) == Ring(buf, tail, n)
            && Ring(buf, tail, n + 1) == Ring(buf, tail, n) + [buf[h]]
  {
    var h := Wrap(tail + n, |buf|);
    var r, r' := Ring(buf, tail, n), Ring(buf[h := x], tail, n);
    forall k | 0 <= k < n ensures r'[k] == r[k] {
      assert Wrap(tail + k, |buf|) != h;
    }
    var e := Ring(buf, tail, n + 1);
    forall k | 0 <= k < n + 1 ensures e[k] == (r + [buf[h]])[k] {
    }
  }

  /** Moving the tail drops the first element. */
  lemma RingPop(buf: seq<Elem>, tail: nat, n: nat)
    requires tail < |buf| && 0 < n <= |buf|
    ensures var u := Wrap(tail + 1, |buf|);
            && buf[tail] == Ring(buf, tail, n)[0]
            && Ring(buf, u, n - 1) == Ring(buf, tail, n)[1..]
            && Wrap(u + (n - 1), |buf|) == Wrap(tail + n, |buf|)
  {
    var u := Wrap(tail + 1, |buf|);
    var r, r' := Ring(buf, tail, n), Ring(buf, u, n - 1);
    assert r[0] == buf[Wrap(tail + 0, |buf|)];
    forall k | 0 <= k < n - 1 ensures r'[k] == r[1..][k] {
      assert r[k + 1] == buf[Wrap(tail + (k + 1), |buf|)];
      assert Wrap(u + k, |buf|) == Wrap(tail + (k + 1), |buf|);
    }
  }

  // ---------------------------------------------------------------- data invariant

  /** The abstract contents after the logged effects. */
  function Contents(sh: Queue): seq<Elem>
    requires Replay(sh.log, |sh.buf|).Some?
  {
    Replay(sh.log, |sh.buf|).value
  }

  /** The log is a history of the bounded FIFO, and the ring from the tail is what that FIFO holds. */
  ghost predicate QueueInv(sh: Queue) {
    && Bounds(sh)
    && Replay(sh.log, |sh.buf|).Some?
    && var q := Contents(sh);
       && |q| <= |sh.buf|
       && sh.head == Wrap(sh.tail + |q|, |sh.buf|)
       && Ring(sh.buf, sh.tail, |q|) == q
  }

  predicate Mid(p: Point) {
    p == Move || p == Advance
  }

  /** The test has been passed and the effect is still to come. */
  predicate Admitted(p: Point) {
    p == WantIndex || p == Count || p == Move || p == Advance
  }

  /** What a thread between the size lock and its unlock knows. */
  ghost predicate DataOk(sh: Queue, th: Thread)
    requires QueueInv(sh)
  {
    var n := |Contents(sh)|;
    && (HoldsSize(th.point) ==> sh.size == if !Mid(th.point) then n else if th.call.Push? then n + 1 else n - 1)
    && (Admitted(th.point) ==> if th.call.Push? then n < |sh.buf| else n > 0)
    && (th.point == Drop ==> if th.call.Push? then n == |sh.buf| else n == 0)
    && (th.point == Advance ==>
        if th.call.Push? then sh.buf[sh.head] == th.call.x else th.elem == Some(sh.buf[sh.tail]))
  }

  lemma ReplayLast(log: seq<Event>, e: Event, cap: nat)
    requires Replay(log, cap).Some?
    ensures Replay(log + [e], cap) ==
            var q := Replay(log, cap).value;
            match e
            case Enq(_, x) => if |q| < cap then Some(q + [x]) else None
            case Deq(_, x) => if q != [] && q[0] == x then Some(q[1..]) else None
  {
    assert (log + [e])[..|log + [e]| - 1] == log;
  }

  lemma PushAdvance(sh: Queue, t: nat, x: Elem)
    requires QueueInv(sh) && |Contents(sh)| < |sh.buf| && sh.buf[sh.head] == x
    ensures var sh' := sh.(head := Wrap(sh.head + 1, |sh.buf|), log := sh.log + [Enq(t, x)]);
            QueueInv(sh') && Contents(sh') == Contents(sh) + [x]
  {
    ReplayLast(sh.log, Enq(t, x), |sh.buf|);
    RingPush(sh.buf, sh.tail, |Contents(sh)|, x);
  }

  lemma PopAdvance(sh: Queue, t: nat)
    requires QueueInv(sh) && |Contents(sh)| > 0
    ensures var sh' := sh.(tail := Wrap(sh.tail + 1, |sh.buf|), log := sh.log + [Deq(t, sh.buf[sh.tail])]);
            QueueInv(sh') && Contents(sh') == Contents(sh)[1..]
  {
    RingPop(sh.buf, sh.tail, |Contents(sh)|);
    ReplayLast(sh.log, Deq(t, sh.buf[sh.tail]), |sh.buf|);
  }

  lemma AdvanceKeeps(sh: Queue, t: nat, th: Thread)
    requires QueueInv(sh) && DataOk(sh, th) && th.point == Advance
    ensures EventOf(t, th.call, th.elem).Some?
    ensures var (sh', th') := Update(sh, t, th);
            && QueueInv(sh') && DataOk(sh', th') && sh'.log == sh.log + [EventOf(t, th.call, th.elem).value]
  {
    var sh' := Update(sh, t, th).0;
    if th.call.Push? {
      PushAdvance(sh, t, th.call.x);
      assert sh' == sh.(head := Wrap(sh.head + 1, |sh.buf|), log := sh.log + [Enq(t, th.call.x)]);
    } else {
      PopAdvance(sh, t);
      assert sh' == sh.(tail := Wrap(sh.tail + 1, |sh.buf|), log := sh.log + [Deq(t, sh.buf[sh.tail])]);
    }
  }

  /** A step of the thread that holds what its point says keeps the data invariant. */
  lemma DataStep(sh: Queue, t: nat, th: Thread)
    requires QueueInv(sh) && DataOk(sh, th) && (th.point == WantSize ==> sh.size == |Contents(sh)|)
    ensures var (sh', th') := Update(sh, t, th);
            && QueueInv(sh') && DataOk(sh', th') && |sh'.buf| == |sh.buf| && sh'.done == sh.done
            && (!HoldsSize(th.point) ==> sh' == sh)
            && (th.point != Advance ==> sh'.log == sh.log)
  {
    if th.point == Move && th.call.Push? {
      RingPush(sh.buf, sh.tail, |Contents(sh)|, th.call.x);
    } else if th.point == Advance {
      AdvanceKeeps(sh, t, th);
    }
  }

  // ---------------------------------------------------------------- history invariant

  predicate Effected(p: Point) {
    p == UnlockIndex || p == UnlockSize || p == UnlockCond || p == Broadcast
  }

  /** A call's own event is in the log, since its invocation, exactly once it has taken effect. */
  ghost predicate HistOk(log: seq<Event>, t: nat, th: Thread) {
    && th.start <= |log|
    && (Effected(th.point) ==>
         && th.start <= th.lin < |log|
         && EventOf(t, th.call, th.elem) == Some(log[th.lin]))
    && (forall k :: th.start <= k < |log| && log[k].t == t ==> Effected(th.point) && k == th.lin)
  }

  ghost predicate ResponseOk(log: seq<Event>, r: Response) {
    && r.start <= r.lin < r.end <= |log|
    && EventOf(r.t, r.call, r.elem) == Some(log[r.lin])
  }

  /** The event belongs to a call that has returned, or to one that is about to. */
  ghost predicate Owned(s: State, k: int)
    requires 0 <= k < |s.sh.log|
  {
    var t := s.sh.log[k].t;
    || (t in s.threads && Effected(s.threads[t].point) && s.threads[t].lin == k)
    || (exists i :: 0 <= i < |s.sh.done| && s.sh.done[i].lin == k)
  }

  ghost predicate HistInv(s: State) {
    var log, done := s.sh.log, s.sh.done;
    && (forall t :: t in s.threads ==> HistOk(log, t, s.threads[t]))
    && (forall i :: 0 <= i < |done| ==> ResponseOk(log, done[i]))
    && (forall i, j :: 0 <= i < j < |done| && done[i].t == done[j].t ==> done[i].end <= done[j].start)
    && (forall i :: 0 <= i < |done| && done[i].t in s.threads ==> done[i].end <= s.threads[done[i].t].start)
    && (forall k :: 0 <= k < |log| ==> Owned(s, k))
  }

  // ---------------------------------------------------------------- the whole invariant

  /** Mutual exclusion; the index locks are only ever taken under the size lock. */
  ghost predicate Exclusion(s: State) {
    forall t, u :: t in s.threads && u in s.threads && t != u ==>
      && !(HoldsSize(s.threads[t].point) && HoldsSize(s.threads[u].point))
      && !(&& HoldsCond(s.threads[t].point) && HoldsCond(s.threads[u].point)
           && s.threads[t].call.Push? == s.threads[u].call.Push?)
  }

  /** While no thread is in the middle of an update the size field is the number of elements. */
  ghost predicate SizeSettled(s: State)
    requires QueueInv(s.sh)
  {
    (forall t :: t in s.threads ==> !Mid(s.threads[t].point)) ==> s.sh.size == |Contents(s.sh)|
  }

  ghost predicate DataInv(s: State) {
    && QueueInv(s.sh)
    && (forall t :: t in s.threads ==> DataOk(s.sh, s.threads[t]))
    && SizeSettled(s)
  }

  ghost predicate Inv(s: State) {
    DataInv(s) && Exclusion(s) && HistInv(s)
  }

  /** An enabled thread finds the lock it wants in nobody's hands. */
  lemma WantedIsFree(s: State, t: nat, u: nat)
    requires Enabled(s, t) && u in s.threads && u != t && Wants(s.threads[t]).Some?
    ensures Wants(s.threads[t]).value.0 !in Held(s.threads[u])
  {
    var l := Wants(s.threads[t]).value.0;
    if l in Held(s.threads[u]) {
      assert WaitsFor(ViewsOf(s), t, u);
    }
  }

  lemma ExclusionStep(s: State, t: nat)
    requires Exclusion(s) && Enabled(s, t) && Bounds(s.sh) && s.threads[t].point != Broadcast
    ensures Exclusion(StepOf(s, t))
  {
    var s' := StepOf(s, t);
    var th, th' := s.threads[t], s'.threads[t];
    forall u | u in s.threads && u != t
      ensures !(HoldsSize(th'.point) && HoldsSize(s.threads[u].point))
      ensures !(HoldsCond(th'.point) && HoldsCond(s.threads[u].point) && th'.call.Push? == s.threads[u].call.Push?)
    {
      if Wants(th).Some? { WantedIsFree(s, t, u); }
    }
  }

  /** A thread that acquires the size lock finds the size settled. */
  lemma SizeFree(s: State, t: nat)
    requires DataInv(s) && Enabled(s, t) && s.threads[t].point == WantSize
    ensures s.sh.size == |Contents(s.sh)|
  {
    forall u | u in s.threads ensures !Mid(s.threads[u].point) {
      if u != t { WantedIsFree(s, t, u); }
    }
  }

  /** The stepping thread changes the fields only under the size lock, so the others' knowledge stands. */
  lemma DataFrame(s: State, t: nat, sh': Queue, th': Thread)
    requires DataInv(s) && Exclusion(s) && t in s.threads
    requires QueueInv(sh') && DataOk(sh', th')
    requires !HoldsSize(s.threads[t].point) ==> sh' == s.sh && !Mid(th'.point)
    requires HoldsSize(s.threads[t].point) && !Mid(th'.point) ==> sh'.size == |Contents(sh')|
    ensures DataInv(State(sh', s.threads[t := th']))
  {
    var s' := State(sh', s.threads[t := th']);
    forall u | u in s.threads && u != t ensures DataOk(sh', s.threads[u]) {
      if HoldsSize(s.threads[t].point) {
        Outside(sh', s.threads[u]);
      } else {
        assert DataOk(s.sh, s.threads[u]);
      }
    }
    SettledFrame(s, t, sh', th');
  }

  lemma SettledFrame(s: State, t: nat, sh': Queue, th': Thread)
    requires QueueInv(s.sh) && SizeSettled(s) && t in s.threads && QueueInv(sh')
    requires !HoldsSize(s.threads[t].point) ==> sh' == s.sh && !Mid(th'.point)
    requires HoldsSize(s.threads[t].point) && !Mid(th'.point) ==> sh'.size == |Contents(sh')|
    ensures SizeSettled(State(sh', s.threads[t := th']))
  {
    var s' := State(sh', s.threads[t := th']);
    if forall u :: u in s'.threads ==> !Mid(s'.threads[u].point) {
      assert t in s'.threads && !Mid(th'.point);
      if !HoldsSize(s.threads[t].point) {
        forall u | u in s.threads ensures !Mid(s.threads[u].point) {
          assert u in s'.threads;
        }
      }
    }
  }

  lemma Outside(sh: Queue, th: Thread)
    requires QueueInv(sh) && !HoldsSize(th.point)
    ensures DataOk(sh, th)
  {
  }

  lemma StepData(s: State, t: nat)
    requires DataInv(s) && Exclusion(s) && Enabled(s, t) && s.threads[t].point != Broadcast
    ensures DataInv(StepOf(s, t))
  {
    var th := s.threads[t];
    if th.point == WantSize { SizeFree(s, t); }
    DataStep(s.sh, t, th);
    SizeAfter(s.sh, t, th);
    var (sh', th') := Update(s.sh, t, th);
    DataFrame(s, t, sh', th');
  }

  /** Whoever leaves the size lock leaves the size field equal to the number of elements. */
  lemma SizeAfter(sh: Queue, t: nat, th: Thread)
    requires QueueInv(sh) && DataOk(sh, th) && th.point != Broadcast
    requires th.point == WantSize ==> sh.size == |Contents(sh)|
    ensures var (sh', th') := Update(sh, t, th);
            && QueueInv(sh')
            && (!HoldsSize(th.point) ==> !Mid(th'.point))
            && (HoldsSize(th.point) && !Mid(th'.point) ==> sh'.size == |Contents(sh')|)
  {
    DataStep(sh, t, th);
    var (sh', th') := Update(sh, t, th);
    if HoldsSize(th.point) && !HoldsSize(th'.point) { assert sh' == sh; }
  }

  /** How a step changes a call's own record. */
  lemma RecordStep(sh: Queue, t: nat, th: Thread)
    requires QueueInv(sh) && DataOk(sh, th) && th.point != Broadcast && th.point != Parked
    ensures var (sh', th') := Update(sh, t, th);
            && sh'.done == sh.done && th'.call == th.call && th'.start == th.start
            && (Effected(th'.point) <==> Effected(th.point) || th.point == Advance)
            && (th.point == Advance ==> th'.lin == |sh.log| && EventOf(t, th'.call, th'.elem).Some?
                                        && sh'.log == sh.log + [EventOf(t, th'.call, th'.elem).value])
            && (th.point != Advance ==> sh'.log == sh.log && th'.lin == th.lin)
            && (Effected(th.point) ==> th'.elem == th.elem)
  {
  }

  lemma HistFrame(s: State, t: nat, sh': Queue, th': Thread)
    requires HistInv(s) && t in s.threads
    requires var th := s.threads[t];
             && sh'.done == s.sh.done && th'.call == th.call && th'.start == th.start
             && (Effected(th'.point) <==> Effected(th.point) || th.point == Advance)
             && (th.point == Advance ==> th'.lin == |s.sh.log| && EventOf(t, th'.call, th'.elem).Some?
                                         && sh'.log == s.sh.log + [EventOf(t, th'.call, th'.elem).value])
             && (th.point != Advance ==> sh'.log == s.sh.log && th'.lin == th.lin)
             && (Effected(th.point) ==> th'.elem == th.elem)
    ensures HistInv(State(sh', s.threads[t := th']))
  {
    var s' := State(sh', s.threads[t := th']);
    forall u | u in s'.threads ensures HistOk(s'.sh.log, u, s'.threads[u]) {
      assert HistOk(s.sh.log, u, s.threads[u]);
    }
    forall i | 0 <= i < |s'.sh.done| ensures ResponseOk(s'.sh.log, s'.sh.done[i]) {
      assert ResponseOk(s.sh.log, s.sh.done[i]);
    }
    forall k | 0 <= k < |s'.sh.log| ensures Owned(s', k) {
      if k < |s.sh.log| { assert Owned(s, k) && HistOk(s.sh.log, t, s.threads[t]); }
    }
  }

  lemma StepHist(s: State, t: nat)
    requires HistInv(s) && QueueInv(s.sh) && t in s.threads && DataOk(s.sh, s.threads[t])
    requires s.threads[t].point != Broadcast && s.threads[t].point != Parked
    ensures HistInv(StepOf(s, t))
  {
    RecordStep(s.sh, t, s.threads[t]);
    var (sh', th') := Update(s.sh, t, s.threads[t]);
    HistFrame(s, t, sh', th');
  }

  lemma ReturnData(s: State, t: nat)
    requires DataInv(s) && Exclusion(s) && t in s.threads && s.threads[t].point == Broadcast
    ensures DataInv(StepOf(s, t)) && Exclusion(StepOf(s, t))
  {
    var th := s.threads[t];
    var r := Response(t, th.call, th.elem, th.start, th.lin, |s.sh.log|);
    ReturnDataFrame(s, t, s.sh.(done := s.sh.done + [r]), WakeAll(s.threads - {t}, th.call));
  }

  lemma ReturnDataFrame(s: State, t: nat, sh': Queue, threads': map<nat, Thread>)
    requires DataInv(s) && Exclusion(s) && t in s.threads && s.threads[t].point == Broadcast
    requires sh' == s.sh.(done := sh'.done) && threads'.Keys == s.threads.Keys - {t}
    requires forall u :: u in threads' ==>
               || threads'[u] == s.threads[u]
               || (s.threads[u].point == Parked && threads'[u] == s.threads[u].(point := Woken))
    ensures DataInv(State(sh', threads')) && Exclusion(State(sh', threads'))
  {
    assert QueueInv(sh') && Contents(sh') == Contents(s.sh);
    forall u | u in threads' ensures DataOk(sh', threads'[u]) {
      assert DataOk(s.sh, s.threads[u]);
    }
    if forall u :: u in threads' ==> !Mid(threads'[u].point) {
      forall u | u in s.threads ensures !Mid(s.threads[u].point) {
        if u != t { assert u in threads'; }
      }
    }
  }

  lemma ReturnHist(s: State, t: nat)
    requires HistInv(s) && Bounds(s.sh) && t in s.threads && s.threads[t].point == Broadcast
    ensures HistInv(StepOf(s, t))
  {
    var th := s.threads[t];
    var r := Response(t, th.call, th.elem, th.start, th.lin, |s.sh.log|);
    ReturnFrame(s, t, r, WakeAll(s.threads - {t}, th.call));
  }

  /** The returning call's record moves from the threads to the responses; waking changes no record. */
  lemma ReturnFrame(s: State, t: nat, r: Response, threads': map<nat, Thread>)
    requires HistInv(s) && t in s.threads && Effected(s.threads[t].point)
    requires var th := s.threads[t]; r == Response(t, th.call, th.elem, th.start, th.lin, |s.sh.log|)
    requires threads'.Keys == s.threads.Keys - {t}
    requires forall u :: u in threads' ==>
               || threads'[u] == s.threads[u]
               || (s.threads[u].point == Parked && threads'[u] == s.threads[u].(point := Woken))
    ensures HistInv(State(s.sh.(done := s.sh.done + [r]), threads'))
  {
    var s' := State(s.sh.(done := s.sh.done + [r]), threads');
    var log, n := s.sh.log, |s.sh.done|;
    assert HistOk(log, t, s.threads[t]);
    forall u | u in threads' ensures HistOk(log, u, threads'[u]) {
      assert HistOk(log, u, s.threads[u]);
    }
    forall i | 0 <= i < |s'.sh.done| ensures ResponseOk(log, s'.sh.done[i]) {
      if i < n { assert ResponseOk(log, s.sh.done[i]); }
    }
    forall k | 0 <= k < |log| ensures Owned(s', k) {
      OwnedAfterReturn(s, t, r, threads', k);
    }
  }

  lemma OwnedAfterReturn(s: State, t: nat, r: Response, threads': map<nat, Thread>, k: int)
    requires 0 <= k < |s.sh.log| && Owned(s, k) && t in s.threads && r.lin == s.threads[t].lin
    requires threads'.Keys == s.threads.Keys - {t}
    requires forall u :: u in threads' ==>
               || threads'[u] == s.threads[u]
               || (s.threads[u].point == Parked && threads'[u] == s.threads[u].(point := Woken))
    ensures Owned(State(s.sh.(done := s.sh.done + [r]), threads'), k)
  {
    var done, done' := s.sh.done, s.sh.done + [r];
    var u := s.sh.log[k].t;
    if u in s.threads && Effected(s.threads[u].point) && s.threads[u].lin == k {
      if u == t { assert done'[|done|].lin == k; }
    } else {
      var i :| 0 <= i < |done| && done[i].lin == k;
      assert done'[i].lin == k;
    }
  }

  /** A thread that holds nothing before and after changes nothing for the others. */
  lemma QuietKeeps(s: State, t: nat, th: Thread)
    requires Inv(s) && (th.point == Start || th.point == Woken) && HistOk(s.sh.log, t, th)
    requires t in s.threads ==> s.threads[t].point == Parked && th.start == s.threads[t].start
    requires t !in s.threads ==> th.start == |s.sh.log|
    ensures Inv(s.(threads := s.threads[t := th]))
  {
    QuietData(s, t, th);
    QuietHist(s, t, th);
  }

  lemma QuietData(s: State, t: nat, th: Thread)
    requires DataInv(s) && Exclusion(s) && (th.point == Start || th.point == Woken)
    requires t in s.threads ==> s.threads[t].point == Parked
    ensures DataInv(s.(threads := s.threads[t := th])) && Exclusion(s.(threads := s.threads[t := th]))
  {
    var s' := s.(threads := s.threads[t := th]);
    Outside(s.sh, th);
    if forall u :: u in s'.threads ==> !Mid(s'.threads[u].point) {
      forall u | u in s.threads ensures !Mid(s.threads[u].point) {
        assert u in s'.threads;
      }
    }
  }

  lemma QuietHist(s: State, t: nat, th: Thread)
    requires HistInv(s) && !Effected(th.point) && HistOk(s.sh.log, t, th)
    requires t in s.threads ==> s.threads[t].point == Parked && th.start == s.threads[t].start
    requires t !in s.threads ==> th.start == |s.sh.log|
    ensures HistInv(s.(threads := s.threads[t := th]))
  {
    var s' := s.(threads := s.threads[t := th]);
    forall i | 0 <= i < |s.sh.done| && s.sh.done[i].t in s'.threads
      ensures s.sh.done[i].end <= s'.threads[s.sh.done[i].t].start
    {
      assert ResponseOk(s.sh.log, s.sh.done[i]);
    }
    forall k | 0 <= k < |s.sh.log| ensures Owned(s', k) {
      assert Owned(s, k);
    }
  }

  /** Every action keeps the invariant. */
  lemma ActKeeps(s: State, a: Action)
    requires Inv(s)
    ensures Inv(Act(s, a)) && |Act(s, a).sh.buf| == |s.sh.buf|
  {
    match a
    case Step(t) =>
      if Enabled(s, t) {
        if s.threads[t].point == Broadcast {
          ReturnData(s, t);
          ReturnHist(s, t);
        } else {
          ExclusionStep(s, t);
          StepData(s, t);
          StepHist(s, t);
        }
      }
    case Invoke(t, call) => if t !in s.threads { QuietKeeps(s, t, Thread(call, Start, |s.sh.log|, 0, None)); }
    case Spurious(t) =>
      if t in s.threads && s.threads[t].point == Parked {
        assert HistOk(s.sh.log, t, s.threads[t]);
        QuietKeeps(s, t, s.threads[t].(point := Woken));
      }
  }

  // ---------------------------------------------------------------- theorems over every interleaving

  /** The state after a sequence of actions, in whatever order they interleave. */
  ghost function Run(s: State, acts: seq<Action>): (r: State)
    requires Inv(s)
    ensures Inv(r) && |r.sh.buf| == |s.sh.buf|
    decreases |acts|
  {
    if acts == [] then s
    else
      ActKeeps(s, acts[0]);
      Run(Act(s, acts[0]), acts[1..])
  }

  lemma CreateInv(buf: seq<Elem>)
    requires buf != []
    ensures Inv(Create(buf))
  {
    assert Ring(buf, 0, 0) == [];
  }

  function Entered(log: seq<Event>): seq<Elem> {
    if log == [] then [] else Entered(log[..|log| - 1]) + (if log[|log| - 1].Enq? then [log[|log| - 1].x] else [])
  }

  function Left(log: seq<Event>): seq<Elem> {
    if log == [] then [] else Left(log[..|log| - 1]) + (if log[|log| - 1].Deq? then [log[|log| - 1].x] else [])
  }

  /** In a history of the sequential queue, what left and what remains is what entered. */
  lemma {:induction false} ReplaySplits(log: seq<Event>, cap: nat)
    requires Replay(log, cap).Some?
    ensures Left(log) + Replay(log, cap).value == Entered(log)
  {
    if log != [] {
      ReplaySplits(log[..|log| - 1], cap);
      var q := Replay(log[..|log| - 1], cap).value;
      var e := log[|log| - 1];
      if e.Deq? { assert q == [e.x] + q[1..]; }
    }
  }

  ghost predicate SizeLockFree(s: State) {
    forall t :: t in s.threads ==> !HoldsSize(s.threads[t].point)
  }

  /** The fields at one state against the logged history. */
  lemma FifoState(s: State)
    requires DataInv(s)
    ensures var n := |Contents(s.sh)|;
            && n <= |s.sh.buf|
            && Left(s.sh.log) + Ring(s.sh.buf, s.sh.tail, n) == Entered(s.sh.log)
            && (SizeLockFree(s) ==> s.sh.size == n && s.sh.head == Wrap(s.sh.tail + n, |s.sh.buf|))
  {
    ReplaySplits(s.sh.log, |s.sh.buf|);
    if SizeLockFree(s) {
      assert forall t :: t in s.threads ==> !Mid(s.threads[t].point);
    }
  }

  /**
   Bounded FIFO: in every interleaving of any number of producers and consumers the dequeued history followed
   by the ring from the tail is the enqueued history; with the size lock free the size and head fields agree.
   */
  lemma BoundedFifo(buf: seq<Elem>, acts: seq<Action>)
    requires buf != []
    ensures Inv(Create(buf))
    ensures var s := Run(Create(buf), acts); var n := |Contents(s.sh)|;
            && n <= |buf| == |s.sh.buf|
            && 0 <= s.sh.size <= |buf|
            && Left(s.sh.log) + Ring(s.sh.buf, s.sh.tail, n) == Entered(s.sh.log)
            && (SizeLockFree(s) ==> s.sh.size == n && s.sh.head == (s.sh.tail + n) % |buf|)
  {
    CreateInv(buf);
    var s := Run(Create(buf), acts);
    FifoState(s);
    WrapIsMod(s.sh.tail + |Contents(s.sh)|, |buf|);
  }

  /**
   Linearizability: the log is a history of the sequential bounded FIFO; every returned call has its own event,
   carrying its own value, placed after its invocation and before its return; two returned calls have different
   events, and a call that returned before another was invoked comes first.
   */
  lemma Linearizable(buf: seq<Elem>, acts: seq<Action>)
    requires buf != []
    ensures Inv(Create(buf))
    ensures var s := Run(Create(buf), acts); var done := s.sh.done;
            && Replay(s.sh.log, |buf|).Some?
            && (forall i :: 0 <= i < |done| ==> ResponseOk(s.sh.log, done[i]))
            && (forall i, j :: 0 <= i < j < |done| ==> done[i].lin != done[j].lin)
            && (forall i, j :: 0 <= i < |done| && 0 <= j < |done| && done[i].end <= done[j].start ==>
                done[i].lin < done[j].lin)
            && (forall k :: 0 <= k < |s.sh.log| ==> Owned(s, k))
  {
    CreateInv(buf);
    var s := Run(Create(buf), acts);
    var done := s.sh.done;
    forall i, j | 0 <= i < j < |done| ensures done[i].lin != done[j].lin {
      assert ResponseOk(s.sh.log, done[i]) && ResponseOk(s.sh.log, done[j]);
    }
    forall i, j | 0 <= i < |done| && 0 <= j < |done| && done[i].end <= done[j].start ensures done[i].lin < done[j].lin {
      assert ResponseOk(s.sh.log, done[i]) && ResponseOk(s.sh.log, done[j]);
    }
  }

  /** Each thread locks the condition variable's mutex, then the size, then an index. */
  lemma LocksInOrder(s: State)
    ensures AllOrdered(ViewsOf(s), 2)
  {
    forall t | t in ViewsOf(s) ensures Ordered(ViewsOf(s)[t]) && WantLevel(ViewsOf(s)[t]) <= 2 {
      InOrder(s.threads[t]);
    }
  }

  lemma InOrder(th: Thread)
    ensures Ordered(ViewOf(th)) && WantLevel(ViewOf(th)) <= 2
  {
  }

  /** Mutex progress: in every state, while some call is not parked, some call that is not parked can step. */
  lemma MutexProgress(s: State, t: nat) returns (u: nat)
    requires t in s.threads && s.threads[t].point != Parked
    ensures Enabled(s, u)
  {
    LocksInOrder(s);
    u := Progress(ViewsOf(s), 2, t);
  }

  /** A parked thread holds no mutex, and no chain of mutex waits closes. */
  lemma NoMutexCycle(s: State, c: seq<nat>)
    requires |c| >= 2 && c[0] == c[|c| - 1]
    ensures forall t :: t in s.threads && s.threads[t].point == Parked ==> Held(s.threads[t]) == map[]
    ensures !WaitChain(ViewsOf(s), c)
  {
    LocksInOrder(s);
    NoWaitCycle(ViewsOf(s), 2, c);
  }
}
