/** When a call waits, and what a call that need not wait achieves by its own steps. */
module PcQueueProgress {
  import opened Bytes
  import opened LockOrder
  import opened PcQueue
  import opened PcQueueProofs

  /** In every interleaving a push that gives way finds the queue full, and a pop that gives way finds it empty. */
  lemma WaitsOnlyWhenBlocked(buf: seq<Elem>, acts: seq<Action>, t: nat)
    requires buf != []
    ensures Inv(Create(buf))
    ensures var s := Run(Create(buf), acts);
            && |s.sh.buf| == |buf|
            && (t in s.threads && s.threads[t].point == Drop ==>
                  if s.threads[t].call.Push? then |Contents(s.sh)| == |buf| else Contents(s.sh) == [])
  {
    CreateInv(buf);
    var s := Run(Create(buf), acts);
    if t in s.threads { assert DataOk(s.sh, s.threads[t]); }
  }

  // ---------------------------------------------------------------- calls that need not wait

  /** The call has passed its test, or is at it with room to put or something to take. */
  ghost predicate Passing(s: State, t: nat)
    requires QueueInv(s.sh) && t in s.threads
  {
    match s.threads[t].point
    case Test => if s.threads[t].call.Push? then |Contents(s.sh)| < |s.sh.buf| else Contents(s.sh) != []
    case WantIndex => true
    case Count => true
    case Move => true
    case Advance => true
    case _ => Effected(s.threads[t].point)
  }

  /** Own steps to the return. */
  function Remaining(p: Point): nat {
    match p
    case Test => 9
    case WantIndex => 8
    case Count => 7
    case Move => 6
    case Advance => 5
    case UnlockIndex => 4
    case UnlockSize => 3
    case UnlockCond => 2
    case _ => 1
  }

  lemma NoIndexOutside(th: Thread, c: Call)
    requires !HoldsSize(th.point)
    ensures IndexLock(c) !in Held(th)
  {
  }

  /** Such a call waits for nobody. */
  lemma PassingEnabled(s: State, t: nat)
    requires Exclusion(s) && t in s.threads
    requires var p := s.threads[t].point; p != Start && p != WantSize && p != Woken && p != Parked
    ensures Enabled(s, t)
  {
    var vs, th := ViewsOf(s), s.threads[t];
    forall u ensures !WaitsFor(vs, t, u) {
      if u in s.threads && u != t && th.point == WantIndex { NoIndexOutside(s.threads[u], th.call); }
    }
  }

  /** One step of a thread that is not about to return, as a change of fields and of that thread alone. */
  lemma PassUpdate(sh: Queue, t: nat, th: Thread)
    requires QueueInv(sh) && DataOk(sh, th)
    requires th.point == Test || Admitted(th.point) || (Effected(th.point) && th.point != Broadcast)
    requires th.point == Test ==> if th.call.Push? then |Contents(sh)| < |sh.buf| else Contents(sh) != []
    ensures var (sh', th') := Update(sh, t, th);
            && th'.call == th.call && th'.start == th.start && Remaining(th'.point) == Remaining(th.point) - 1
            && (Admitted(th'.point) || Effected(th'.point)) && (Effected(th'.point) <==> Remaining(th.point) <= 5)
            && sh'.done == sh.done && (th.point != Advance ==> sh'.log == sh.log)
            && (th.point == Advance ==> |sh'.log| == |sh.log| + 1 && sh'.log[..|sh.log|] == sh.log)
  {
    RecordStep(sh, t, th);
  }

  // ---------------------------------------------------------------- to the return

  function Repeat(t: nat, n: nat): seq<Action> {
    seq(n, _ => Step(t))
  }

  lemma RunFirst(s: State, s': State, t: nat, n: nat)
    requires Inv(s) && n > 0 && s' == Act(s, Step(t)) && Inv(s')
    ensures Run(s, Repeat(t, n)) == Run(s', Repeat(t, n - 1))
  {
    assert Repeat(t, n)[1..] == Repeat(t, n - 1);
  }

  /** The effect of one such step. */
  ghost predicate Passed(s: State, s': State, t: nat)
    requires t in s.threads
  {
    var th := s.threads[t];
    && t in s'.threads && s'.threads == s.threads[t := s'.threads[t]]
    && var th' := s'.threads[t];
       && th'.call == th.call && th'.start == th.start && Remaining(th'.point) == Remaining(th.point) - 1
       && (Admitted(th'.point) || Effected(th'.point)) && (Effected(th'.point) <==> Remaining(th.point) <= 5)
       && s'.sh.done == s.sh.done && (th.point != Advance ==> s'.sh.log == s.sh.log)
       && (th.point == Advance ==> |s'.sh.log| == |s.sh.log| + 1 && s'.sh.log[..|s.sh.log|] == s.sh.log)
  }

  lemma PassStep(s: State, t: nat, n: nat) returns (s': State)
    requires Inv(s) && t in s.threads && Passing(s, t) && s.threads[t].point != Broadcast && n > 0
    ensures Inv(s') && Passed(s, s', t) && Run(s, Repeat(t, n)) == Run(s', Repeat(t, n - 1))
  {
    assert DataOk(s.sh, s.threads[t]);
    PassingEnabled(s, t);
    PassUpdate(s.sh, t, s.threads[t]);
    ActKeeps(s, Step(t));
    s' := Act(s, Step(t));
    RunFirst(s, s', t, n);
  }

  /** A call has returned: its response is recorded and whoever was parked in the other operation is awake. */
  ghost predicate Returned(s: State, s': State, t: nat)
    requires t in s.threads
  {
    var th, k := s.threads[t], |s.sh.done|;
    && s'.threads.Keys == s.threads.Keys - {t}
    && |s'.sh.done| == k + 1 && s'.sh.done[..k] == s.sh.done
    && s'.sh.done[k].t == t && s'.sh.done[k].call == th.call && s'.sh.done[k].start == th.start
    && (forall u :: u in s'.threads ==>
          s'.threads[u] == if s.threads[u].point == Parked && s.threads[u].call.Push? != th.call.Push?
                           then s.threads[u].(point := Woken) else s.threads[u])
  }

  /** The call's event is the one entry by which the log has grown, unless it was logged already. */
  ghost predicate Logged(s: State, s': State, t: nat)
    requires t in s.threads
  {
    var log, log' := s.sh.log, s'.sh.log;
    if Effected(s.threads[t].point) then log' == log else |log'| == |log| + 1 && log'[..|log|] == log
  }

  lemma ReturnStep(s: State, t: nat) returns (s': State)
    requires Inv(s) && t in s.threads && s.threads[t].point == Broadcast
    ensures Inv(s') && s' == Run(s, Repeat(t, 1)) && Returned(s, s', t) && Logged(s, s', t)
  {
    PassingEnabled(s, t);
    ActKeeps(s, Step(t));
    s' := Act(s, Step(t));
    RunFirst(s, s', t, 1);
  }

  lemma ReturnedAfter(s: State, s': State, s'': State, t: nat)
    requires t in s.threads && Passed(s, s', t) && Returned(s', s'', t) && Logged(s', s'', t)
    requires s.threads[t].point == Test || Admitted(s.threads[t].point) || Effected(s.threads[t].point)
    requires s.threads[t].point != Broadcast
    ensures Returned(s, s'', t) && Logged(s, s'', t)
  {
  }

  /** A call that need not wait returns by its own steps, whatever the other calls hold. */
  lemma {:induction false} Completes(s: State, t: nat) returns (s': State)
    requires Inv(s) && t in s.threads && Passing(s, t)
    ensures s' == Run(s, Repeat(t, Remaining(s.threads[t].point))) && Inv(s')
    ensures Returned(s, s', t) && Logged(s, s', t)
    decreases Remaining(s.threads[t].point)
  {
    if s.threads[t].point == Broadcast {
      s' := ReturnStep(s, t);
    } else {
      var s1 := PassStep(s, t, Remaining(s.threads[t].point));
      s' := Completes(s1, t);
      ReturnedAfter(s, s1, s', t);
    }
  }

  /** The response that a returning call adds carries the value of the event that it added. */
  lemma OwnEvent(s: State, s': State, t: nat)
    requires Inv(s) && Inv(s') && t in s.threads && Returned(s, s', t) && Logged(s, s', t)
    requires !Effected(s.threads[t].point)
    ensures var r := s'.sh.done[|s.sh.done|]; EventOf(t, s.threads[t].call, r.elem) == Some(s'.sh.log[|s.sh.log|])
  {
    var r, log, log' := s'.sh.done[|s.sh.done|], s.sh.log, s'.sh.log;
    assert ResponseOk(log', r) && HistOk(log, t, s.threads[t]);
    assert forall k :: 0 <= k < |log| ==> log'[k] == log[k];
  }

  /**
   In every state of every interleaving a push that finds room puts its element in last and returns by its own steps,
   and every pop that was parked is then awake.
   */
  lemma PushCompletes(s: State, t: nat) returns (s': State)
    requires Inv(s) && t in s.threads && s.threads[t].point == Test && s.threads[t].call.Push?
    requires |Contents(s.sh)| < |s.sh.buf|
    ensures s' == Run(s, Repeat(t, 9)) && Inv(s') && Returned(s, s', t)
    ensures s'.sh.log == s.sh.log + [Enq(t, s.threads[t].call.x)]
  {
    s' := Completes(s, t);
    OwnEvent(s, s', t);
    var n := |s.sh.log|;
    assert s'.sh.log == s'.sh.log[..n] + [s'.sh.log[n]];
  }

  /** A pop that finds something takes and returns the oldest element, and every push that was parked is then awake. */
  lemma PopCompletes(s: State, t: nat) returns (s': State)
    requires Inv(s) && t in s.threads && s.threads[t].point == Test && s.threads[t].call.Pop?
    requires Contents(s.sh) != []
    ensures s' == Run(s, Repeat(t, 9)) && Inv(s') && Returned(s, s', t)
    ensures s'.sh.log == s.sh.log + [Deq(t, Contents(s.sh)[0])]
    ensures s'.sh.done[|s.sh.done|].elem == Some(Contents(s.sh)[0])
  {
    s' := Completes(s, t);
    OwnEvent(s, s', t);
    var n := |s.sh.log|;
    var e := s'.sh.log[n];
    assert s'.sh.log == s'.sh.log[..n] + [e];
    RunCapacity(s, Repeat(t, 9));
    ReplayLast(s.sh.log, e, |s.sh.buf|);
  }

  lemma {:induction false} RunCapacity(s: State, acts: seq<Action>)
    requires Inv(s)
    ensures |Run(s, acts).sh.buf| == |s.sh.buf|
    decreases |acts|
  {
    if acts != [] {
      ActKeeps(s, acts[0]);
      RunCapacity(Act(s, acts[0]), acts[1..]);
    }
  }

  /** Where the test goes: on when there is room, or something to take, and to the wait otherwise. */
  lemma TestOutcome(s: State, t: nat)
    requires Inv(s) && t in s.threads && s.threads[t].point == Test
    ensures var s' := Act(s, Step(t)); var room := Passing(s, t);
            s' == s.(threads := s.threads[t := s.threads[t].(point := if room then WantIndex else Drop)])
  {
    PassingEnabled(s, t);
    assert DataOk(s.sh, s.threads[t]);
  }

  /** A call that gives way parks, holding nothing, by its own steps. */
  lemma GivesWay(s: State, t: nat)
    requires Inv(s) && t in s.threads && (s.threads[t].point == Drop || s.threads[t].point == Wait)
    ensures var next := if s.threads[t].point == Drop then Wait else Parked;
            Act(s, Step(t)) == s.(threads := s.threads[t := s.threads[t].(point := next)])
  {
    PassingEnabled(s, t);
  }

  /** With nobody inside, a call that begins or has been woken goes on to its test. */
  lemma Enters(s: State, t: nat)
    requires Inv(s) && t in s.threads
    requires s.threads[t].point == Start || s.threads[t].point == Woken || s.threads[t].point == WantSize
    requires forall u :: u in s.threads && u != t ==> !HoldsCond(s.threads[u].point)
    ensures var next := if s.threads[t].point == WantSize then Test else WantSize;
            Act(s, Step(t)) == s.(threads := s.threads[t := s.threads[t].(point := next)])
  {
    var vs := ViewsOf(s);
    forall u ensures !WaitsFor(vs, t, u) {
      if u in s.threads && u != t { assert Held(s.threads[u]) == map[]; }
    }
  }

  /** A call that is invoked is at its first lock; the queue and the other calls stay as they were. */
  lemma Invoked(s: State, t: nat, call: Call)
    requires Bounds(s.sh) && t !in s.threads
    ensures var s' := Act(s, Invoke(t, call));
            && s'.sh == s.sh && t in s'.threads && s'.threads == s.threads[t := s'.threads[t]]
            && s'.threads[t].call == call && s'.threads[t].point == Start && s'.threads[t].start == |s.sh.log|
  {
  }

  /** A parked call may wake without a broadcast. */
  lemma WakesSpuriously(s: State, t: nat)
    requires Bounds(s.sh) && t in s.threads && s.threads[t].point == Parked
    ensures Act(s, Spurious(t)) == s.(threads := s.threads[t := s.threads[t].(point := Woken)])
  {
  }
}
