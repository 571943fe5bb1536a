/** What a session achieves by its own steps: admission, publication, delivery and the end of a session. */
module BoxLogProgress {
  import opened Bytes
  import opened Framing
  import opened BoxLog
  import opened BoxLogProofs

  /** A session stepping `n` times by itself. */
  function Alone(B: nat, box: Box, se: Session, ch: Choice, n: nat): (r: (Box, Session))
    requires CursorOk(B, box, se)
    ensures CursorOk(B, r.0, r.1)
    decreases n
  {
    if n == 0 then (box, se)
    else
      var (box', se') := Next(B, box, se, ch);
      Alone(B, box', se', ch, n - 1)
  }

  lemma {:induction false} AloneMore(B: nat, box: Box, se: Session, ch: Choice, m: nat, n: nat)
    requires CursorOk(B, box, se)
    ensures var (box', se') := Alone(B, box, se, ch, m);
            Alone(B, box, se, ch, m + n) == Alone(B, box', se', ch, n)
    decreases m
  {
    if m > 0 {
      var (box', se') := Next(B, box, se, ch);
      AloneMore(B, box', se', ch, m - 1, n);
    }
  }

  function Repeat(t: nat, ch: Choice, n: nat): seq<Action> {
    seq(n, _ => Step(t, ch))
  }

  /** The system after a session has stepped `n` times by itself. */
  function After(B: nat, s: System, t: nat, ch: Choice, n: nat): System
    requires t in s.sessions && CursorOk(B, s.box, s.sessions[t])
  {
    var (box, se) := Alone(B, s.box, s.sessions[t], ch, n);
    System(box, s.sessions[t := se])
  }

  lemma ActAlone(B: nat, s: System, t: nat, ch: Choice)
    requires AllCursorsOk(B, s) && t in s.sessions && CursorOk(B, s.box, s.sessions[t]) && MutexFreeFor(s, t)
    ensures var s' := Act(B, s, Step(t, ch));
            && t in s'.sessions && CursorOk(B, s'.box, s'.sessions[t]) && MutexFreeFor(s', t)
            && forall n :: n > 0 ==> After(B, s, t, ch, n) == After(B, s', t, ch, n - 1)
  {
    var s' := Act(B, s, Step(t, ch));
    forall n | n > 0 ensures After(B, s, t, ch, n) == After(B, s', t, ch, n - 1) {
      var se := Alone(B, s'.box, s'.sessions[t], ch, n - 1).1;
      assert s'.sessions[t := se] == s.sessions[t := se];
    }
  }

  lemma FirstStep(B: nat, s: System, t: nat, ch: Choice, n: nat) returns (s': System)
    requires Inv(B, s) && t in s.sessions && CursorOk(B, s.box, s.sessions[t]) && MutexFreeFor(s, t) && n > 0
    ensures Inv(B, s') && t in s'.sessions && CursorOk(B, s'.box, s'.sessions[t]) && MutexFreeFor(s', t)
    ensures Run(B, s, Repeat(t, ch, n)) == Run(B, s', Repeat(t, ch, n - 1))
    ensures After(B, s, t, ch, n) == After(B, s', t, ch, n - 1)
  {
    InvCursors(B, s);
    ActAlone(B, s, t, ch);
    ActKeeps(B, s, Step(t, ch));
    s' := Act(B, s, Step(t, ch));
    RunFirst(B, s, t, ch, n);
  }

  /** While no other session holds the mutex, these are steps of the whole system. */
  lemma {:induction false} AloneRuns(B: nat, s: System, t: nat, ch: Choice, n: nat)
    requires Inv(B, s) && t in s.sessions && CursorOk(B, s.box, s.sessions[t]) && MutexFreeFor(s, t)
    ensures Run(B, s, Repeat(t, ch, n)) == After(B, s, t, ch, n)
    decreases n
  {
    if n == 0 {
      assert s.sessions[t := s.sessions[t]] == s.sessions;
    } else {
      var s' := FirstStep(B, s, t, ch, n);
      AloneRuns(B, s', t, ch, n - 1);
    }
  }

  lemma RunFirst(B: nat, s: System, t: nat, ch: Choice, n: nat)
    requires n > 0 && Inv(B, s) && AllCursorsOk(B, s) && Inv(B, Act(B, s, Step(t, ch)))
    ensures Run(B, s, Repeat(t, ch, n)) == Run(B, Act(B, s, Step(t, ch)), Repeat(t, ch, n - 1))
  {
    assert Repeat(t, ch, n)[1..] == Repeat(t, ch, n - 1);
  }

  lemma AloneStep(B: nat, box: Box, se: Session, ch: Choice, n: nat, box1: Box, se1: Session)
    requires CursorOk(B, box, se) && Alone(B, box, se, ch, n) == (box1, se1)
    ensures Alone(B, box, se, ch, n + 1) == Next(B, box1, se1, ch)
  {
    AloneMore(B, box, se, ch, n, 1);
    assert Alone(B, box1, se1, ch, 1) == Next(B, box1, se1, ch);
  }

  // ---------------------------------------------------------------- publishers

  /** An idle box admits a publisher, with its cursor at the end of the file; a busy one turns it away unchanged. */
  lemma Admission(B: nat, box: Box, ch: Choice)
    requires |box.contents| <= B && ch.ok
    ensures var start := Publisher(Register, 0);
            && (box.publishers != 1 ==>
                  var box' := box.(publishers := box.publishers + 1);
                  Alone(B, box, start, ch, 5) == (box', Publisher(NextRequest, |box.contents|)))
            && (box.publishers == 1 ==> Alone(B, box, start, ch, 3) == (box, Publisher(PubDone, 0)))
  {
    var start := Publisher(Register, 0);
    var (b2, e2) := Alone(B, box, start, ch, 2);
    AloneMore(B, box, start, ch, 2, 3);
    AloneMore(B, box, start, ch, 2, 1);
    AloneMore(B, b2, e2, ch, 2, 1);
  }

  /** A request takes the publisher to the write of exactly that message. */
  lemma RequestReachesWrite(B: nat, box: Box, off: nat, ch: Choice)
    requires off <= |box.contents| <= B && ch.request.Some? && NulFree(ch.request.value)
    ensures Alone(B, box, Publisher(NextRequest, off), ch, 2) == (box, Publisher(WriteBody(ch.request.value), off))
  {
  }

  /** The steps of a publication: contents, cursor, size and the messages accepted are as write_message says. */
  lemma Publication(B: nat, box: Box, m: Message, off: nat, ch: Choice)
    requires off <= |box.contents| <= B
    ensures var (c, off', ret) := WriteMessage(B, box.contents, off, m, ch.blockFree);
            var se := Publisher(WriteBody(m), off);
            && (ret != -1 ==>
                  var box' := box.(contents := c, size := box.size + ret + 1, accepted := box.accepted + [m]);
                  Alone(B, box, se, ch, 4) == (box', Publisher(NextRequest, off')))
            && (ret == -1 ==>
                  exists n :: 0 < n <= 2 && Alone(B, box, se, ch, n) == (box.(contents := c), Publisher(Failed, off')))
  {
    var se := Publisher(WriteBody(m), off);
    var (c1, off1, ret1) := FileWrite(B, box.contents, off, m, ch.blockFree);
    var box1 := box.(contents := c1);
    if ret1 != |m| {
      assert Alone(B, box, se, ch, 1) == (box1, Publisher(Failed, off1));
    } else {
      AloneMore(B, box, se, ch, 1, 1);
      AloneMore(B, box, se, ch, 1, 3);
      var (c2, off2, ret2) := FileWrite(B, c1, off1, [0], ch.blockFree);
      assert Next(B, box, se, ch) == (box1, Publisher(WriteEnd(m), off1));
      if ret2 == -1 {
        assert Alone(B, box, se, ch, 2) == (box1.(contents := c2), Publisher(Failed, off2));
      } else {
        var box2 := box1.(contents := c2, accepted := box.accepted + [m]);
        assert Next(B, box1, Publisher(WriteEnd(m), off1), ch) == (box2, Publisher(Resize(m), off2));
        AloneMore(B, box1, Publisher(WriteEnd(m), off1), ch, 1, 2);
        AloneMore(B, box2, Publisher(Resize(m), off2), ch, 1, 1);
      }
    }
  }

  /** After a refused message the publisher leaves, and the box has one publisher less. */
  lemma Departure(B: nat, box: Box, off: nat, ch: Choice)
    requires off <= |box.contents| <= B && box.publishers > 0
    ensures Alone(B, box, Publisher(Failed, off), ch, 4)
         == (box.(publishers := box.publishers - 1), Publisher(PubDone, off))
  {
    AloneMore(B, box, Publisher(Failed, off), ch, 2, 2);
  }

  // ---------------------------------------------------------------- subscribers

  lemma Subscription(B: nat, box: Box, ch: Choice)
    requires |box.contents| <= B && ch.ok
    ensures Alone(B, box, Subscriber(Subscribe, 0, 0, []), ch, 4)
         == (box.(subscribers := box.subscribers + 1), Subscriber(WantRead, 0, 0, []))
  {
    AloneMore(B, box, Subscriber(Subscribe, 0, 0, []), ch, 2, 2);
  }

  /** The byte loop of a subscriber is read_message. */
  lemma {:induction false} ByteLoop(B: nat, box: Box, se: Session, buf: seq<byte>, ch: Choice)
    requires se.Subscriber? && CursorOk(B, box, se) && se.sub == ReadByte(buf)
    ensures var (x, end) := ReadMessage(box.contents, se.off);
            && (x.Some? ==> Alone(B, box, se, ch, |x.value|) == (box, se.(sub := Send(buf + x.value), off := end)))
            && (x.None? ==>
                  se.off <= end && Alone(B, box, se, ch, end - se.off + 1) == (box, se.(sub := SubOut, off := end)))
    decreases |box.contents| - se.off
  {
    if se.off < |box.contents| && box.contents[se.off] != 0 {
      var b := box.contents[se.off];
      var se' := se.(sub := ReadByte(buf + [b]), off := se.off + 1);
      assert Next(B, box, se, ch) == (box, se');
      ByteLoop(B, box, se', buf + [b], ch);
      var x := ReadMessage(box.contents, se.off + 1).0;
      if x.Some? { assert buf + [b] + x.value == buf + ([b] + x.value); }
    }
  }

  lemma FramesInLog(c: seq<byte>, ms: seq<Message>)
    requires PrefixOf(ms, Parse(c).0)
    ensures PrefixOf(Frames(ms), c)
  {
    FramesParse(c);
    FramesLonger(ms, Parse(c).0);
  }

  lemma NextFrame(c: seq<byte>, sent: seq<Message>, m: Message)
    requires PrefixOf(sent + [m], Parse(c).0)
    ensures PrefixOf(Frames(sent) + m + [0], c)
  {
    FramesInLog(c, sent + [m]);
    FramesSnoc(sent, m);
  }

  /** A reader that has consumed everything before a frame reads that frame. */
  lemma ReadFrame(c: seq<byte>, before: seq<byte>, m: Message)
    requires NulFree(m) && PrefixOf(before + m + [0], c)
    ensures ReadMessage(c, |before|) == (Some(m + [0]), |before| + |m| + 1)
  {
    var frame := before + m + [0];
    assert c == frame + c[|frame|..];
    ReadOne(before, m, c[|frame|..]);
  }

  /** When only the tail is left the read fails at the end of the file. */
  lemma ReadTail(c: seq<byte>, before: seq<byte>, tail: Message)
    requires NulFree(tail) && c == before + tail
    ensures ReadMessage(c, |before|) == (None, |before| + |tail|)
  {
    ReadOne(before, tail, []);
  }

  lemma ReadLoop(B: nat, box: Box, se: Session, x: seq<byte>, end: nat, ch: Choice)
    requires se.Subscriber? && CursorOk(B, box, se) && se.sub == ReadByte([])
    requires ReadMessage(box.contents, se.off) == (Some(x), end)
    ensures Alone(B, box, se, ch, |x|) == (box, se.(sub := Send(x), off := end))
  {
    ByteLoop(B, box, se, [], ch);
    assert [] + x == x;
  }

  lemma SendStep(B: nat, box: Box, se: Session, m: Message, ch: Choice)
    requires se.Subscriber? && CursorOk(B, box, se) && se.sub == Send(m + [0]) && ch.ok && NulFree(m)
    ensures Next(B, box, se, ch) == (box, Subscriber(Sent, se.off, se.total + |m| + 1, se.sent + [m]))
  {
    assert m + [0] == m + [0] + [];
    CStrOfTerminated(m, []);
  }

  /** Having read a message to its end, the session sends exactly that message. */
  lemma SendsRead(B: nat, box: Box, se: Session, m: Message, n: nat, end: nat, ch: Choice)
    requires se.Subscriber? && CursorOk(B, box, se) && ch.ok && NulFree(m)
    requires Alone(B, box, se, ch, n) == (box, se.(sub := Send(m + [0]), off := end))
    ensures Alone(B, box, se, ch, n + 1) == (box, Subscriber(Sent, end, se.total + |m| + 1, se.sent + [m]))
  {
    var se1 := se.(sub := Send(m + [0]), off := end);
    AloneStep(B, box, se, ch, n, box, se1);
    SendStep(B, box, se1, m, ch);
  }

  /** With no complete message left the read fails and the session ends. */
  lemma EndsSession(B: nat, box: Box, se: Session, n: nat, ch: Choice)
    requires se.Subscriber? && CursorOk(B, box, se) && se.sub == ReadByte([]) && box.subscribers > 0
    requires ReadMessage(box.contents, se.off) == (None, se.off + n)
    ensures Alone(B, box, se, ch, n + 3)
         == (box.(subscribers := box.subscribers - 1), se.(sub := SubDone, off := se.off + n))
  {
    ByteLoop(B, box, se, [], ch);
    var out := se.(sub := SubOut, off := se.off + n);
    var box1 := box.(subscribers := box.subscribers - 1);
    AloneStep(B, box, se, ch, n + 1, box, out);
    AloneStep(B, box, se, ch, n + 2, box1, out.(sub := Unsubscribed));
  }

  // ---------------------------------------------------------------- in every interleaving

  lemma HolderIsAlone(B: nat, s: System, t: nat)
    requires Inv(B, s) && t in s.sessions && Holds(s.sessions[t])
    ensures MutexFreeFor(s, t) && HolderOk(B, s.box, s.sessions[t]) && SessionOk(B, s.box, s.sessions[t])
  {
  }

  /** In every interleaving a subscriber parks if and only if it has been sent everything accepted; else it reads. */
  lemma ParksIffCaughtUp(B: nat, acts: seq<Action>, t: nat, ch: Choice)
    ensures Inv(B, CREATED) && AllCursorsOk(B, Run(B, CREATED, acts))
    ensures var s := Run(B, CREATED, acts);
            t in s.sessions && s.sessions[t].Subscriber? && s.sessions[t].sub.Test? ==>
              var s', se := Act(B, s, Step(t, ch)), s.sessions[t];
              && t in s'.sessions && s'.box == s.box
              && s'.sessions[t] == se.(sub := if se.sent == s.box.accepted then Parked else ReadByte([]))
  {
    PrefixDelivery(B, acts, t);
    var s := Run(B, CREATED, acts);
    InvCursors(B, s);
    if t in s.sessions && s.sessions[t].Subscriber? && s.sessions[t].sub.Test? {
      HolderIsAlone(B, s, t);
      FramesLonger(s.sessions[t].sent, s.box.accepted);
    }
  }

  /** The subscriber has the mutex and is about to read a message from the start. */
  predicate Begins(s: System, t: nat) {
    t in s.sessions && s.sessions[t].Subscriber? && s.sessions[t].sub == ReadByte([])
  }

  /**
   Delivery: in every interleaving a subscriber that starts to read while a complete message it has not been sent is
   in the file sends exactly the next accepted message by its own steps.
   */
  lemma Delivery(B: nat, acts: seq<Action>, t: nat, ch: Choice) returns (n: nat)
    requires ch.ok
    ensures Inv(B, CREATED)
    ensures var s := Run(B, CREATED, acts);
            Begins(s, t) && |s.sessions[t].sent| < |Parse(s.box.contents).0| ==>
              var s' := Run(B, s, Repeat(t, ch, n)); var k := |s.sessions[t].sent|;
              && k < |s.box.accepted| && s'.box == s.box
              && t in s'.sessions && s'.sessions[t].Subscriber? && s'.sessions[t].sub == Sent
              && s'.sessions[t].sent == s.sessions[t].sent + [s.box.accepted[k]]
  {
    CreatedInv(B);
    var s := Run(B, CREATED, acts);
    n := 0;
    if Begins(s, t) && |s.sessions[t].sent| < |Parse(s.box.contents).0| {
      n := DeliveryFrom(B, s, t, ch);
    }
  }

  lemma DeliveryFrom(B: nat, s: System, t: nat, ch: Choice) returns (n: nat)
    requires ch.ok && Inv(B, s) && Begins(s, t) && |s.sessions[t].sent| < |Parse(s.box.contents).0|
    ensures var s' := Run(B, s, Repeat(t, ch, n)); var k := |s.sessions[t].sent|;
            && k < |s.box.accepted| && s'.box == s.box
            && t in s'.sessions && s'.sessions[t].Subscriber? && s'.sessions[t].sub == Sent
            && s'.sessions[t].sent == s.sessions[t].sent + [s.box.accepted[k]]
  {
    var se := s.sessions[t];
    HolderIsAlone(B, s, t);
    var m := Waiting(B, s, t);
    var x := m + [0];
    n := |x| + 1;
    ReadLoop(B, s.box, se, x, se.off + |m| + 1, ch);
    SendsRead(B, s.box, se, m, |x|, se.off + |m| + 1, ch);
    RunsTo(B, s, t, ch, n, s.box, Subscriber(Sent, se.off + |m| + 1, se.total + |m| + 1, se.sent + [m]));
  }

  lemma Waiting(B: nat, s: System, t: nat) returns (m: Message)
    requires Inv(B, s) && Begins(s, t) && |s.sessions[t].sent| < |Parse(s.box.contents).0|
    ensures var se := s.sessions[t];
            && |se.sent| < |s.box.accepted| && m == s.box.accepted[|se.sent|] && NulFree(m)
            && se.off <= |s.box.contents|
            && ReadMessage(s.box.contents, se.off) == (Some(m + [0]), se.off + |m| + 1)
  {
    HolderIsAlone(B, s, t);
    var se, ms := s.sessions[t], Parse(s.box.contents).0;
    ReadPrefix(se.sent, s.box.contents);
    LogPrefix(B, s);
    m := ms[|se.sent|];
    assert ms[..|se.sent| + 1] == se.sent + [m];
    NextFrame(s.box.contents, se.sent, m);
    ReadFrame(s.box.contents, Frames(se.sent), m);
  }

  /** In every interleaving a subscriber that starts to read with nothing complete left ends its session. */
  lemma SessionEnds(B: nat, s: System, t: nat, ch: Choice) returns (n: nat)
    requires Inv(B, s) && Begins(s, t) && s.sessions[t].sent == Parse(s.box.contents).0
    ensures var s' := Run(B, s, Repeat(t, ch, n));
            && s.box.subscribers > 0 && s'.box == s.box.(subscribers := s.box.subscribers - 1)
            && t in s'.sessions && s'.sessions[t].Subscriber? && s'.sessions[t].sub == SubDone
            && s'.sessions[t].sent == s.sessions[t].sent
  {
    var k := NothingLeft(B, s, t);
    HolderIsAlone(B, s, t);
    n := k + 3;
    var se := s.sessions[t];
    EndsSession(B, s.box, se, k, ch);
    var box := s.box.(subscribers := s.box.subscribers - 1);
    RunsTo(B, s, t, ch, n, box, se.(sub := SubDone, off := se.off + k));
  }

  lemma NothingLeft(B: nat, s: System, t: nat) returns (k: nat)
    requires Inv(B, s) && Begins(s, t) && s.sessions[t].sent == Parse(s.box.contents).0
    ensures var off := s.sessions[t].off;
            && s.box.subscribers > 0 && off <= |s.box.contents|
            && ReadMessage(s.box.contents, off) == (None, off + k)
  {
    ReaderAt(B, s, t);
    k := |Parse(s.box.contents).1|;
    TailLeft(s.box.contents, s.sessions[t].off);
  }

  lemma ReaderAt(B: nat, s: System, t: nat)
    requires Inv(B, s) && Begins(s, t)
    ensures var se := s.sessions[t];
            s.box.subscribers > 0 && se.off == |Frames(se.sent)| <= |s.box.contents|
  {
    HolderIsAlone(B, s, t);
    assert t in Subscriptions(s);
  }

  lemma TailLeft(c: seq<byte>, off: nat)
    requires off == |Frames(Parse(c).0)|
    ensures off <= |c| && ReadMessage(c, off) == (None, off + |Parse(c).1|)
  {
    FramesParse(c);
    ReadTail(c, c[..off], Parse(c).1);
  }

  /** In every interleaving, once the mutex is free an idle box admits a publisher by its own steps. */
  lemma PublisherAdmitted(B: nat, s: System, t: nat, ch: Choice)
    requires Inv(B, s) && t in s.sessions && s.sessions[t] == Publisher(Register, 0) && MutexFreeFor(s, t) && ch.ok
    ensures s.box.publishers == 0 ==>
              Run(B, s, Repeat(t, ch, 5))
              == System(s.box.(publishers := 1), s.sessions[t := Publisher(NextRequest, |s.box.contents|)])
    ensures s.box.publishers != 0 ==>
              Run(B, s, Repeat(t, ch, 3)) == s.(sessions := s.sessions[t := Publisher(PubDone, 0)])
  {
    Admission(B, s.box, ch);
    AloneRuns(B, s, t, ch, 5);
    AloneRuns(B, s, t, ch, 3);
  }

  /**
   In every interleaving, once the mutex is free the active publisher's next message, if it and its terminator fit, is
   appended, accepted and counted by its own steps.
   */
  lemma MessagePublished(B: nat, s: System, t: nat, m: Message, ch: Choice)
    requires Inv(B, s) && t in s.sessions && s.sessions[t].Publisher? && s.sessions[t].pub == NextRequest
    requires MutexFreeFor(s, t) && ch.request == Some(m) && NulFree(m) && ch.blockFree
    requires |s.box.contents| + |m| + 1 <= B
    ensures var s' := Run(B, s, Repeat(t, ch, 6));
            && s'.box.contents == s.box.contents + m + [0]
            && s'.box.accepted == s.box.accepted + [m] && s'.box.size == s.box.size + |m| + 1
            && s'.sessions == s.sessions[t := Publisher(NextRequest, |s'.box.contents|)]
  {
    var box, off := s.box, s.sessions[t].off;
    assert SessionOk(B, box, s.sessions[t]);
    RequestReachesWrite(B, box, off, ch);
    WriteMessageReturns(B, box.contents, off, m, true);
    WriteMessageAppends(B, box.contents, m, true);
    Publication(B, box, m, off, ch);
    AloneMore(B, box, s.sessions[t], ch, 2, 4);
    AloneRuns(B, s, t, ch, 6);
  }

  /** A session that arrives is at its first step, with nothing sent; box and other sessions stay as they were. */
  lemma Arrives(B: nat, s: System, t: nat, publisher: bool)
    requires AllCursorsOk(B, s) && t !in s.sessions
    ensures var se := if publisher then Publisher(Register, 0) else Subscriber(Subscribe, 0, 0, []);
            Act(B, s, Arrive(t, publisher)) == System(s.box, s.sessions[t := se])
  {
  }

  // ---------------------------------------------------------------- the whole loop

  /** Without a further request the publisher leaves and is counted out. */
  lemma NoMoreRequests(B: nat, box: Box, off: nat, ch: Choice)
    requires off <= |box.contents| <= B && box.publishers > 0 && ch.request == None
    ensures Alone(B, box, Publisher(NextRequest, off), ch, 4)
         == (box.(publishers := box.publishers - 1), Publisher(PubDone, off))
  {
    AloneMore(B, box, Publisher(NextRequest, off), ch, 2, 2);
  }

  /** A subscriber that is woken takes the mutex back and starts to read. */
  lemma WokenReads(B: nat, box: Box, se: Session, ch: Choice)
    requires se.Subscriber? && CursorOk(B, box, se) && se.sub == Parked
    ensures Alone(B, box, se, ch, 2) == (box, se.(sub := ReadByte([])))
  {
    AloneStep(B, box, se, ch, 1, box, se.(sub := Woken));
  }

  /** A subscriber between two messages, after the first `k` messages of the log. */
  function Between(ms: seq<Message>): Session {
    Subscriber(WantRead, |Frames(ms)|, |Frames(ms)|, ms)
  }

  lemma AloneJoin(B: nat, box: Box, se: Session, se1: Session, se2: Session, ch: Choice, m: nat, n: nat)
    requires CursorOk(B, box, se) && Alone(B, box, se, ch, m) == (box, se1)
    requires CursorOk(B, box, se1) && Alone(B, box, se1, ch, n) == (box, se2)
    ensures Alone(B, box, se, ch, m + n) == (box, se2)
  {
    AloneMore(B, box, se, ch, m, n);
  }

  lemma TestReads(B: nat, box: Box, se: Session, ch: Choice)
    requires se.Subscriber? && CursorOk(B, box, se) && se.sub == WantRead && se.total < box.size
    ensures Alone(B, box, se, ch, 2) == (box, se.(sub := ReadByte([])))
  {
    AloneStep(B, box, se, ch, 1, box, se.(sub := Test));
  }

  lemma TestParks(B: nat, box: Box, se: Session, ch: Choice)
    requires se.Subscriber? && CursorOk(B, box, se) && se.sub == WantRead && se.total >= box.size
    ensures Alone(B, box, se, ch, 2) == (box, se.(sub := Parked))
  {
    AloneStep(B, box, se, ch, 1, box, se.(sub := Test));
  }

  /** One turn of the loop: the next message is sent. */
  lemma Turn(B: nat, box: Box, ms: seq<Message>, m: Message, ch: Choice) returns (n: nat)
    requires |box.contents| <= B && ch.ok && NulFree(m) && PrefixOf(Frames(ms) + m + [0], box.contents)
    requires |Frames(ms)| < box.size
    ensures Alone(B, box, Between(ms), ch, n) == (box, Between(ms + [m]))
  {
    var c, off := box.contents, |Frames(ms)|;
    var se := Between(ms);
    var x := m + [0];
    var end := off + |m| + 1;
    ReadFrame(c, Frames(ms), m);
    TestReads(B, box, se, ch);
    var se1 := se.(sub := ReadByte([]));
    ReadLoop(B, box, se1, x, end, ch);
    SendsRead(B, box, se1, m, |x|, end, ch);
    var se2 := Subscriber(Sent, end, off + |m| + 1, ms + [m]);
    AloneJoin(B, box, se, se1, se2, ch, 2, |x| + 1);
    AloneStep(B, box, se, ch, 2 + (|x| + 1), box, se2);
    FramesSnoc(ms, m);
    n := 2 + (|x| + 1) + 1;
  }

  /** A subscriber left to itself sends every complete message of the log, in order. */
  lemma {:induction false} CatchesUp(B: nat, box: Box, ms: seq<Message>, ch: Choice) returns (n: nat)
    requires |box.contents| <= B && ch.ok && PrefixOf(ms, Parse(box.contents).0)
    requires |Frames(Parse(box.contents).0)| <= box.size && |Frames(ms)| <= |box.contents|
    ensures Alone(B, box, Between(ms), ch, n) == (box, Between(Parse(box.contents).0))
    decreases |Parse(box.contents).0| - |ms|
  {
    var all := Parse(box.contents).0;
    if |ms| == |all| {
      assert ms == all[..|all|] == all;
      n := 0;
    } else {
      var m := all[|ms|];
      var next := ms + [m];
      assert all[..|next|] == next;
      FramesLonger(ms, all);
      NextFrame(box.contents, ms, m);
      FramesSnoc(ms, m);
      var k := Turn(B, box, ms, m, ch);
      var rest := CatchesUp(B, box, next, ch);
      AloneJoin(B, box, Between(ms), Between(next), Between(all), ch, k, rest);
      n := k + rest;
    }
  }

  /**
   Complete delivery: in every interleaving, once the mutex is free a subscriber between two messages sends, by its
   own steps, every complete message in the file; if the block is not full it then parks, having been sent every
   accepted one.
   */
  lemma EverythingDelivered(B: nat, s: System, t: nat, ch: Choice) returns (n: nat)
    requires Inv(B, s) && t in s.sessions && s.sessions[t].Subscriber? && s.sessions[t].sub == WantRead
    requires MutexFree(s) && ch.ok
    ensures var all := Parse(s.box.contents).0;
            && Run(B, s, Repeat(t, ch, n)) == s.(sessions := s.sessions[t := Between(all)])
            && (|s.box.contents| < B ==>
                  && all == s.box.accepted
                  && Run(B, s, Repeat(t, ch, n + 2)) == s.(sessions := s.sessions[t := Between(all).(sub := Parked)]))
  {
    LoopState(B, s, t);
    n := LoopAlone(B, s.box, s.sessions[t].sent, ch);
    var all := Parse(s.box.contents).0;
    RunsTo(B, s, t, ch, n, s.box, Between(all));
    if |s.box.contents| < B { RunsTo(B, s, t, ch, n + 2, s.box, Between(all).(sub := Parked)); }
  }

  lemma RunsTo(B: nat, s: System, t: nat, ch: Choice, n: nat, box: Box, se: Session)
    requires Inv(B, s) && t in s.sessions && CursorOk(B, s.box, s.sessions[t]) && MutexFreeFor(s, t)
    requires Alone(B, s.box, s.sessions[t], ch, n) == (box, se)
    ensures Run(B, s, Repeat(t, ch, n)) == System(box, s.sessions[t := se])
  {
    AloneRuns(B, s, t, ch, n);
  }

  lemma LoopAlone(B: nat, box: Box, sent: seq<Message>, ch: Choice) returns (n: nat)
    requires |box.contents| <= B && ch.ok && PrefixOf(sent, Parse(box.contents).0) && |Frames(sent)| <= |box.contents|
    requires var all := Parse(box.contents).0; |Frames(all)| <= |box.contents| && |Frames(all)| <= box.size
    ensures var all := Parse(box.contents).0;
            && Alone(B, box, Between(sent), ch, n) == (box, Between(all))
            && (box.size == |Frames(all)| ==>
                  Alone(B, box, Between(sent), ch, n + 2) == (box, Between(all).(sub := Parked)))
  {
    var all := Parse(box.contents).0;
    n := CatchesUp(B, box, sent, ch);
    if box.size == |Frames(all)| {
      TestParks(B, box, Between(all), ch);
      AloneJoin(B, box, Between(sent), Between(all), Between(all).(sub := Parked), ch, n, 2);
    }
  }

  lemma LoopState(B: nat, s: System, t: nat)
    requires Inv(B, s) && t in s.sessions && s.sessions[t].Subscriber? && s.sessions[t].sub == WantRead && MutexFree(s)
    ensures var c, all := s.box.contents, Parse(s.box.contents).0; var sent := s.sessions[t].sent;
            && s.sessions[t] == Between(sent) && PrefixOf(sent, all) && |Frames(sent)| <= |c| <= B
            && |Frames(all)| <= |c| && |Frames(all)| <= s.box.size
            && (|c| < B ==> all == s.box.accepted && s.box.size == |Frames(all)|)
  {
    var se, all := s.sessions[t], Parse(s.box.contents).0;
    assert SessionOk(B, s.box, se) && Frames(se.sent) + [] == Frames(se.sent);
    ReadPrefix(se.sent, s.box.contents);
    FramesLonger(all, s.box.accepted);
    FramesInLog(s.box.contents, all);
  }
}
