/**
 Lock acquisition in rank order, for any number of threads: a thread that wants a lock wants one of a higher
 level than every lock it holds. Then waits form no cycle and some thread can always go on.
 */
module LockOrder {
  import opened Bytes

  datatype Lock = Lock(level: nat, index: int)

  datatype Access = Reader | Writer

  /** What a thread holds and the lock it is waiting for, if any. */
  datatype View = View(held: map<Lock, Access>, wants: Option<(Lock, Access)>)

  type Views = map<nat, View>

  predicate Conflict(a: Access, b: Access) {
    a.Writer? || b.Writer?
  }

  predicate Ordered(v: View) {
    v.wants.Some? ==> forall l :: l in v.held ==> l.level < v.wants.value.0.level
  }

  /** Thread `t` wants a lock that `u` holds in a conflicting mode. */
  predicate WaitsFor(vs: Views, t: nat, u: nat) {
    && t in vs && u in vs && t != u && vs[t].wants.Some?
    && vs[t].wants.value.0 in vs[u].held
    && Conflict(vs[t].wants.value.1, vs[u].held[vs[t].wants.value.0])
  }

  ghost predicate Runnable(vs: Views, t: nat) {
    t in vs && forall u :: !WaitsFor(vs, t, u)
  }

  ghost predicate AllOrdered(vs: Views, top: nat) {
    forall t :: t in vs ==> Ordered(vs[t]) && (vs[t].wants.Some? ==> vs[t].wants.value.0.level <= top)
  }

  function WantLevel(v: View): int {
    if v.wants.Some? then v.wants.value.0.level else -1
  }

  /** Following waits upwards in rank reaches a thread that can go on. */
  lemma {:induction false} Progress(vs: Views, top: nat, t: nat) returns (u: nat)
    requires AllOrdered(vs, top) && t in vs
    ensures Runnable(vs, u)
    decreases top - WantLevel(vs[t])
  {
    if Runnable(vs, t) {
      u := t;
    } else {
      var w :| WaitsFor(vs, t, w);
      if vs[w].wants.None? {
        u := w;
      } else {
        u := Progress(vs, top, w);
      }
    }
  }

  /** A chain of waits, each thread waiting for the next. */
  ghost predicate WaitChain(vs: Views, c: seq<nat>) {
    forall k :: 0 <= k < |c| - 1 ==> WaitsFor(vs, c[k], c[k + 1])
  }

  lemma {:induction false} LevelsRise(vs: Views, top: nat, c: seq<nat>)
    requires AllOrdered(vs, top) && WaitChain(vs, c) && |c| >= 2
    requires c[0] in vs && c[|c| - 1] in vs && vs[c[|c| - 1]].wants.Some?
    ensures WantLevel(vs[c[0]]) < WantLevel(vs[c[|c| - 1]])
  {
    assert WaitsFor(vs, c[0], c[1]);
    if |c| > 2 {
      var d := c[1..];
      forall k | 0 <= k < |d| - 1 ensures WaitsFor(vs, d[k], d[k + 1]) {
        assert WaitsFor(vs, c[k + 1], c[k + 2]);
      }
      assert WaitsFor(vs, d[0], d[1]);
      LevelsRise(vs, top, d);
    }
  }

  /** No chain of waits comes back to where it started. */
  lemma NoWaitCycle(vs: Views, top: nat, c: seq<nat>)
    requires AllOrdered(vs, top) && |c| >= 2 && c[0] == c[|c| - 1]
    ensures !WaitChain(vs, c)
  {
    if WaitChain(vs, c) {
      assert WaitsFor(vs, c[0], c[1]);
      LevelsRise(vs, top, c);
    }
  }
}
