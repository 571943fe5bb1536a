/** In every interleaving: one appender at a time, cursors inside the file, and prefix delivery. */
module BoxLogProofs {
  import opened Bytes
  import opened Framing
  import opened BoxLog

  // ---------------------------------------------------------------- invariant

  /**
   The log holds the accepted messages; once the block has filled up it may lack the last ones, or end in the
   beginning of a message that was refused.
   */
  ghost predicate LogOk(B: nat, c: seq<byte>, accepted: seq<Message>) {
    && |c| <= B && Clean(accepted)
    && PrefixOf(Parse(c).0, accepted)
    && (|c| < B ==> Parse(c) == (accepted, []))
  }

  /** The log between the write of a message and the write of its terminator. */
  ghost predicate PendingOk(B: nat, c: seq<byte>, accepted: seq<Message>, m: Message) {
    NulFree(m) && if m == [] then LogOk(B, c, accepted) else |c| <= B && Clean(accepted) && Parse(c) == (accepted, m)
  }

  /** What holds of the box whenever its mutex is free. */
  ghost predicate Settled(B: nat, box: Box) {
    LogOk(B, box.contents, box.accepted) && box.size == |Frames(box.accepted)|
  }

  /** What holds of the box while a session holds the mutex. */
  ghost predicate HolderOk(B: nat, box: Box, se: Session) {
    if se.Publisher? && se.pub.WriteEnd? then
      PendingOk(B, box.contents, box.accepted, se.pub.m) && box.size == |Frames(box.accepted)|
    else if se.Publisher? && se.pub.Resize? then
      LogOk(B, box.contents, box.accepted) && box.size + |se.pub.m| + 1 == |Frames(box.accepted)|
    else Settled(B, box)
  }

  /** A publisher between registration and deregistration. */
  predicate IsRegistered(se: Session) {
    && se.Publisher? && !se.pub.Register? && !se.pub.CheckPublisher? && !se.pub.OpenAppend? && !se.pub.CountIn?
    && !se.pub.Left? && !se.pub.Rejected? && !se.pub.PubDone?
  }

  predicate IsSubscribed(se: Session) {
    && se.Subscriber? && !se.sub.Subscribe? && !se.sub.OpenRead? && !se.sub.SubIn?
    && !se.sub.Unsubscribed? && !se.sub.Refused? && !se.sub.SubDone?
  }

  ghost predicate PubOk(box: Box, p: PubStep, off: nat) {
    match p
    case OpenAppend => box.publishers == 0
    case CountIn => box.publishers == 0 && off == |box.contents|
    case Registered => off == |box.contents|
    case NextRequest => off == |box.contents|
    case WantWrite(m) => off == |box.contents| && NulFree(m)
    case WriteBody(m) => off == |box.contents| && NulFree(m)
    case WriteEnd(m) => off == |box.contents|
    case Resize(_) => off == |box.contents|
    case Written => off == |box.contents|
    case _ => true
  }

  /** What a subscriber has been sent and is reading lies at the front of the log. */
  ghost predicate SubOk(c: seq<byte>, se: Session)
    requires se.Subscriber?
  {
    && Clean(se.sent) && PrefixOf(Frames(se.sent), c)
    && match se.sub
       case Subscribe => se.sent == []
       case OpenRead => se.sent == []
       case SubIn => se.off == 0 && se.sent == []
       case Subscribed => se.off == 0 && se.sent == []
       case ReadByte(buf) => Reading(c, se, buf) && NulFree(buf)
       case Send(buf) => Reading(c, se, buf) && buf != [] && buf[|buf| - 1] == 0 && NulFree(buf[..|buf| - 1])
       case SubOut => true
       case Unsubscribed => true
       case Refused => se.sent == []
       case SubDone => true
       case _ => Reading(c, se, [])
  }

  ghost predicate Reading(c: seq<byte>, se: Session, buf: seq<byte>)
    requires se.Subscriber?
  {
    se.total == |Frames(se.sent)| && se.off == se.total + |buf| && PrefixOf(Frames(se.sent) + buf, c)
  }

  ghost predicate SessionOk(B: nat, box: Box, se: Session) {
    CursorOk(B, box, se) && if se.Publisher? then PubOk(box, se.pub, se.off) else SubOk(box.contents, se)
  }

  function Registrations(s: System): set<nat> {
    set t | t in s.sessions && IsRegistered(s.sessions[t])
  }

  function Subscriptions(s: System): set<nat> {
    set t | t in s.sessions && IsSubscribed(s.sessions[t])
  }

  ghost predicate SessionsOk(B: nat, s: System) {
    forall t :: t in s.sessions ==> SessionOk(B, s.box, s.sessions[t])
  }

  predicate MutexFree(s: System) {
    forall t :: t in s.sessions ==> !Holds(s.sessions[t])
  }

  /** At most one session holds the mutex, and the box is as the holder left it. */
  ghost predicate MutexOk(B: nat, s: System) {
    && (forall t, u :: t in s.sessions && u in s.sessions && t != u && Holds(s.sessions[t]) ==> !Holds(s.sessions[u]))
    && (forall t :: t in s.sessions && Holds(s.sessions[t]) ==> HolderOk(B, s.box, s.sessions[t]))
    && (MutexFree(s) ==> Settled(B, s.box))
  }

  predicate CountsOk(s: System) {
    s.box.publishers == |Registrations(s)| <= 1 && s.box.subscribers == |Subscriptions(s)|
  }

  ghost predicate Inv(B: nat, s: System) {
    |s.box.contents| <= B && SessionsOk(B, s) && MutexOk(B, s) && CountsOk(s)
  }

  // ---------------------------------------------------------------- the log

  /** Writing a message at the end of the log. */
  lemma BodyWritten(B: nat, c: seq<byte>, accepted: seq<Message>, m: Message, blockFree: bool)
    requires LogOk(B, c, accepted) && NulFree(m)
    ensures var (c', off, ret) := FileWrite(B, c, |c|, m, blockFree);
            && off == |c'| && PrefixOf(c, c')
            && if ret == |m| then PendingOk(B, c', accepted, m) else LogOk(B, c', accepted)
  {
    AppendWrite(B, c, m, blockFree);
    var (c', off, ret) := FileWrite(B, c, |c|, m, blockFree);
    if ret > 0 {
      ParseTail(c, m[..ret]);
      assert [] + m[..ret] == m[..ret];
      assert ret == |m| ==> m[..ret] == m;
    } else if ret == 0 {
      assert c' == c;
    }
  }

  /** Writing its terminator, or finding the block full. */
  lemma EndWritten(B: nat, c: seq<byte>, accepted: seq<Message>, m: Message, blockFree: bool)
    requires PendingOk(B, c, accepted, m)
    ensures var (c', off, ret) := FileWrite(B, c, |c|, [0], blockFree);
            && off == |c'| && PrefixOf(c, c')
            && (ret == -1 ==> LogOk(B, c', accepted))
            && (ret != -1 ==> LogOk(B, c', accepted + [m]))
  {
    AppendWrite(B, c, [0], blockFree);
    var (c', off, ret) := FileWrite(B, c, |c|, [0], blockFree);
    if ret == 1 {
      assert [0][..1] == [0 as byte];
      ParseSnoc(c, 0);
    } else if ret == 0 {
      assert c' == c;
    }
  }

  // ---------------------------------------------------------------- one session

  /** What a step of a session does to the box, as the other sessions see it. */
  ghost predicate BoxStep(box: Box, se: Session, box': Box, se': Session) {
    && PrefixOf(box.contents, box'.contents)
    && (!Holds(se) ==> box' == box)
    && (box'.contents != box.contents ==> IsRegistered(se))
    && box'.publishers - box.publishers == One(IsRegistered(se')) - One(IsRegistered(se))
    && box'.subscribers - box.subscribers == One(IsSubscribed(se')) - One(IsSubscribed(se))
    && (IsRegistered(se') && !IsRegistered(se) ==> box.publishers == 0)
    && (Holds(se') ==> Holds(se) || Wants(se))
  }

  ghost predicate PubReady(B: nat, box: Box, p: PubStep, off: nat) {
    var se := Publisher(p, off);
    && off <= |box.contents| <= B && PubOk(box, p, off)
    && (Holds(se) ==> HolderOk(B, box, se))
    && (Wants(se) ==> Settled(B, box))
    && box.publishers <= 1 && (IsRegistered(se) ==> box.publishers == 1)
  }

  ghost predicate StepOk(B: nat, box: Box, se: Session, box': Box, se': Session) {
    && SessionOk(B, box', se') && BoxStep(box, se, box', se')
    && (Holds(se') ==> HolderOk(B, box', se'))
    && (Holds(se) && !Holds(se') ==> Settled(B, box'))
  }

  /** A registered publisher that appended to the file under the mutex. */
  lemma Appended(B: nat, box: Box, se: Session, box': Box, se': Session)
    requires se.Publisher? && (se.pub.WriteBody? || se.pub.WriteEnd?)
    requires se'.Publisher? && (se'.pub.WriteEnd? || se'.pub.Resize? || se'.pub.Failed?)
    requires PrefixOf(box.contents, box'.contents) && se'.off == |box'.contents| <= B
    requires box'.publishers == box.publishers && box'.subscribers == box.subscribers
    requires HolderOk(B, box', se')
    ensures StepOk(B, box, se, box', se')
  {
  }

  lemma BodyStepOk(B: nat, box: Box, m: Message, off: nat, ch: Choice)
    requires off == |box.contents| && NulFree(m) && Settled(B, box)
    ensures var (box', se') := NextPub(B, box, WriteBody(m), off, ch); StepOk(B, box, Publisher(WriteBody(m), off),
        box', se')
  {
    BodyWritten(B, box.contents, box.accepted, m, ch.blockFree);
    var (c', off', ret) := FileWrite(B, box.contents, off, m, ch.blockFree);
    var next := Publisher(if ret == |m| then WriteEnd(m) else Failed, off');
    Appended(B, box, Publisher(WriteBody(m), off), box.(contents := c'), next);
  }

  lemma EndEffect(B: nat, box: Box, m: Message, blockFree: bool)
    requires PendingOk(B, box.contents, box.accepted, m) && box.size == |Frames(box.accepted)|
    ensures var (c', off', ret) := FileWrite(B, box.contents, |box.contents|, [0], blockFree);
            && off' == |c'| && PrefixOf(box.contents, c')
            && (ret == -1 ==> Settled(B, box.(contents := c')))
            && (ret != -1 ==>
                  HolderOk(B, box.(contents := c', accepted := box.accepted + [m]), Publisher(Resize(m), off')))
  {
    EndWritten(B, box.contents, box.accepted, m, blockFree);
    FramesSnoc(box.accepted, m);
  }

  lemma EndStepOk(B: nat, box: Box, m: Message, off: nat, ch: Choice, c': seq<byte>, off': nat, ret: int)
    requires off == |box.contents| <= B && (c', off', ret) == FileWrite(B, box.contents, off, [0], ch.blockFree)
    requires off' == |c'| && PrefixOf(box.contents, c')
    requires ret == -1 ==> Settled(B, box.(contents := c'))
    requires ret != -1 ==> HolderOk(B, box.(contents := c', accepted := box.accepted + [m]), Publisher(Resize(m), off'))
    ensures var (box', se') := NextPub(B, box, WriteEnd(m), off, ch); StepOk(B, box, Publisher(WriteEnd(m), off),
        box', se')
  {
    var se := Publisher(WriteEnd(m), off);
    if ret == -1 {
      Appended(B, box, se, box.(contents := c'), Publisher(Failed, off'));
    } else {
      Appended(B, box, se, box.(contents := c', accepted := box.accepted + [m]), Publisher(Resize(m), off'));
    }
  }

  predicate Quiet(p: PubStep) {
    !p.WriteBody? && !p.WriteEnd?
  }

  /** Steps that leave the file alone. */
  lemma QuietCounts(B: nat, box: Box, p: PubStep, off: nat, ch: Choice)
    requires off <= |box.contents| <= B && Quiet(p)
    requires IsRegistered(Publisher(p, off)) ==> box.publishers == 1
    requires p.CountIn? ==> box.publishers == 0
    ensures var (box', se') := NextPub(B, box, p, off, ch);
            && BoxStep(box, Publisher(p, off), box', se')
            && box'.contents == box.contents && box'.accepted == box.accepted
            && box'.size == (if p.Resize? then box.size + |p.m| + 1 else box.size)
  {
  }

  lemma QuietStepOk(B: nat, box: Box, p: PubStep, off: nat, ch: Choice)
    requires PubReady(B, box, p, off) && Quiet(p)
    ensures var (box', se') := NextPub(B, box, p, off, ch); StepOk(B, box, Publisher(p, off), box', se')
  {
    QuietCounts(B, box, p, off, ch);
    var (box', se') := NextPub(B, box, p, off, ch);
    assert Settled(B, box) && !p.Resize? ==> Settled(B, box');
  }

  lemma PubStepOk(B: nat, box: Box, p: PubStep, off: nat, ch: Choice)
    requires PubReady(B, box, p, off)
    ensures var (box', se') := NextPub(B, box, p, off, ch); StepOk(B, box, Publisher(p, off), box', se')
  {
    match p
    case WriteBody(m) => BodyStepOk(B, box, m, off, ch);
    case WriteEnd(m) =>
      EndEffect(B, box, m, ch.blockFree);
      var (c', off', ret) := FileWrite(B, box.contents, off, [0], ch.blockFree);
      EndStepOk(B, box, m, off, ch, c', off', ret);
    case _ => QuietStepOk(B, box, p, off, ch);
  }

  lemma SubReads(c: seq<byte>, sent: seq<Message>, buf: seq<byte>, off: nat)
    requires PrefixOf(Frames(sent) + buf, c) && off == |Frames(sent)| + |buf| < |c|
    ensures PrefixOf(Frames(sent) + (buf + [c[off]]), c)
  {
  }

  lemma SubSends(c: seq<byte>, sent: seq<Message>, buf: seq<byte>)
    requires PrefixOf(Frames(sent) + buf, c) && Clean(sent)
    requires buf != [] && buf[|buf| - 1] == 0 && NulFree(buf[..|buf| - 1])
    ensures NulFree(CStr(buf)) && Frames(sent + [CStr(buf)]) == Frames(sent) + buf
    ensures PrefixOf(Frames(sent + [CStr(buf)]), c) && Clean(sent + [CStr(buf)])
  {
    var m := buf[..|buf| - 1];
    assert buf == m + [0] + [];
    CStrOfTerminated(m, []);
    FramesSnoc(sent, m);
    assert Frames(sent) + buf == Frames(sent) + m + [0];
  }

  lemma SubKeepsReading(B: nat, box: Box, se: Session, ch: Choice)
    requires se.Subscriber? && CursorOk(B, box, se) && SubOk(box.contents, se) && se.sub.ReadByte?
    ensures var se' := NextSub(B, box, se, ch).1;
            se'.Subscriber? && se'.off <= |box.contents| && SubOk(box.contents, se')
  {
    if se.off < |box.contents| { SubReads(box.contents, se.sent, se.sub.buf, se.off); }
  }

  lemma SubKeepsSending(B: nat, box: Box, se: Session, ch: Choice)
    requires se.Subscriber? && CursorOk(B, box, se) && SubOk(box.contents, se) && se.sub.Send?
    ensures var se' := NextSub(B, box, se, ch).1;
            se'.Subscriber? && se'.off <= |box.contents| && SubOk(box.contents, se')
  {
    SubSends(box.contents, se.sent, se.sub.buf);
    var sent' := se.sent + [CStr(se.sub.buf)];
    assert Frames(sent') + [] == Frames(sent');
  }

  lemma SubKeeps(B: nat, box: Box, se: Session, ch: Choice)
    requires se.Subscriber? && CursorOk(B, box, se) && SubOk(box.contents, se)
    ensures var se' := NextSub(B, box, se, ch).1;
            se'.Subscriber? && se'.off <= |box.contents| && SubOk(box.contents, se')
  {
    match se.sub
    case ReadByte(buf) => SubKeepsReading(B, box, se, ch);
    case Send(buf) => SubKeepsSending(B, box, se, ch);
    case _ => assert Frames(se.sent) + [] == Frames(se.sent);
  }

  lemma SubCounts(B: nat, box: Box, se: Session, ch: Choice)
    requires se.Subscriber? && CursorOk(B, box, se) && (IsSubscribed(se) ==> box.subscribers > 0)
    ensures var (box', se') := NextSub(B, box, se, ch);
            && BoxStep(box, se, box', se') && box'.contents == box.contents && box'.accepted == box.accepted
            && box'.size == box.size
  {
  }

  lemma SubStepOk(B: nat, box: Box, se: Session, ch: Choice)
    requires se.Subscriber? && CursorOk(B, box, se) && SubOk(box.contents, se)
    requires Holds(se) || Wants(se) ==> Settled(B, box)
    requires IsSubscribed(se) ==> box.subscribers > 0
    ensures var (box', se') := NextSub(B, box, se, ch); StepOk(B, box, se, box', se')
  {
    SubKeeps(B, box, se, ch);
    SubCounts(B, box, se, ch);
    assert Settled(B, box) ==> Settled(B, NextSub(B, box, se, ch).0);
  }

  // ---------------------------------------------------------------- all sessions

  /** A session that did not step keeps what it knows. */
  lemma OtherKeeps(B: nat, box: Box, box': Box, se: Session)
    requires SessionOk(B, box, se) && |box'.contents| <= B && PrefixOf(box.contents, box'.contents)
    requires Holds(se) ==> box' == box
    requires IsRegistered(se) ==> box'.contents == box.contents
    ensures SessionOk(B, box', se)
  {
  }

  function One(b: bool): int {
    if b then 1 else 0
  }

  lemma SetStep(r: set<nat>, r': set<nat>, t: nat, now: bool)
    requires r' == if now then r + {t} else r - {t}
    ensures |r'| - |r| == One(now) - One(t in r)
  {
  }

  lemma RegistrationsStep(s: System, t: nat, box': Box, se': Session)
    ensures |Registrations(System(box', s.sessions[t := se']))| - |Registrations(s)|
         == One(IsRegistered(se')) - One(t in s.sessions && IsRegistered(s.sessions[t]))
  {
    var r, r' := Registrations(s), Registrations(System(box', s.sessions[t := se']));
    assert r' == if IsRegistered(se') then r + {t} else r - {t};
    SetStep(r, r', t, IsRegistered(se'));
  }

  lemma SubscriptionsStep(s: System, t: nat, box': Box, se': Session)
    ensures |Subscriptions(System(box', s.sessions[t := se']))| - |Subscriptions(s)|
         == One(IsSubscribed(se')) - One(t in s.sessions && IsSubscribed(s.sessions[t]))
  {
    var r, r' := Subscriptions(s), Subscriptions(System(box', s.sessions[t := se']));
    assert r' == if IsSubscribed(se') then r + {t} else r - {t};
    SetStep(r, r', t, IsSubscribed(se'));
  }

  /** Two registered publishers would make the count exceed one. */
  lemma OneRegistered(s: System, t: nat, u: nat)
    requires t in s.sessions && u in s.sessions && t != u && |Registrations(s)| <= 1 && IsRegistered(s.sessions[t])
    ensures !IsRegistered(s.sessions[u])
  {
    var others := Registrations(s) - {t};
    assert t in Registrations(s) && |others| == 0;
    assert u !in others;
  }

  /** A session arrives or steps: who may hold the mutex and what the box then looks like. */
  lemma MutexKeeps(B: nat, s: System, t: nat, box': Box, se': Session)
    requires MutexOk(B, s)
    requires Holds(se') ==> HolderOk(B, box', se') && MutexFreeFor(s, t)
    requires t in s.sessions && Holds(s.sessions[t]) ==> Holds(se') || Settled(B, box')
    requires t !in s.sessions || !Holds(s.sessions[t]) ==> box' == s.box
    ensures MutexOk(B, System(box', s.sessions[t := se']))
  {
    var s' := System(box', s.sessions[t := se']);
    if MutexFree(s') {
      assert t in s'.sessions && !Holds(s'.sessions[t]);
      forall u | u in s.sessions && u != t ensures !Holds(s.sessions[u]) {
        assert u in s'.sessions;
      }
    }
  }

  lemma SessionsKeep(B: nat, s: System, t: nat, box': Box, se': Session)
    requires Inv(B, s) && t in s.sessions && StepOk(B, s.box, s.sessions[t], box', se')
    ensures SessionsOk(B, System(box', s.sessions[t := se']))
  {
    var s' := System(box', s.sessions[t := se']);
    forall u | u in s'.sessions ensures SessionOk(B, box', s'.sessions[u]) {
      if u != t {
        if box'.contents != s.box.contents { OneRegistered(s, t, u); }
        OtherKeeps(B, s.box, box', s.sessions[u]);
      }
    }
  }

  lemma StepSystem(B: nat, s: System, t: nat, box': Box, se': Session)
    requires Inv(B, s) && t in s.sessions && StepOk(B, s.box, s.sessions[t], box', se')
    requires Wants(s.sessions[t]) ==> MutexFreeFor(s, t)
    ensures Inv(B, System(box', s.sessions[t := se']))
  {
    RegistrationsStep(s, t, box', se');
    SubscriptionsStep(s, t, box', se');
    SessionsKeep(B, s, t, box', se');
    MutexKeeps(B, s, t, box', se');
  }

  lemma InvCursors(B: nat, s: System)
    requires Inv(B, s)
    ensures AllCursorsOk(B, s)
  {
    forall t | t in s.sessions ensures CursorOk(B, s.box, s.sessions[t]) {
      assert SessionOk(B, s.box, s.sessions[t]);
    }
  }

  lemma StepKeeps(B: nat, s: System, t: nat, ch: Choice)
    requires Inv(B, s) && AllCursorsOk(B, s) && t in s.sessions && (Wants(s.sessions[t]) ==> MutexFreeFor(s, t))
    ensures var (box', se') := Next(B, s.box, s.sessions[t], ch); Inv(B, System(box', s.sessions[t := se']))
  {
    var se := s.sessions[t];
    assert SessionOk(B, s.box, se);
    if Wants(se) {
      assert MutexFree(s);
      assert Settled(B, s.box);
    }
    if IsRegistered(se) {
      assert t in Registrations(s);
    }
    if IsSubscribed(se) {
      assert t in Subscriptions(s);
    }
    if se.Publisher? {
      PubStepOk(B, s.box, se.pub, se.off, ch);
    } else {
      SubStepOk(B, s.box, se, ch);
    }
    var (box', se') := Next(B, s.box, se, ch);
    StepSystem(B, s, t, box', se');
  }

  lemma ArriveKeeps(B: nat, s: System, t: nat, publisher: bool)
    requires Inv(B, s) && t !in s.sessions
    ensures Inv(B, s.(sessions := s.sessions[t := Arriving(publisher)]))
  {
    RegistrationsStep(s, t, s.box, Arriving(publisher));
    SubscriptionsStep(s, t, s.box, Arriving(publisher));
    MutexKeeps(B, s, t, s.box, Arriving(publisher));
  }

  lemma ActKeeps(B: nat, s: System, a: Action)
    requires Inv(B, s) && AllCursorsOk(B, s)
    ensures Inv(B, Act(B, s, a))
    ensures PrefixOf(s.box.contents, Act(B, s, a).box.contents) && PrefixOf(s.box.accepted, Act(B, s, a).box.accepted)
  {
    match a
    case Arrive(t, publisher) => if t !in s.sessions { ArriveKeeps(B, s, t, publisher); }
    case Step(t, ch) =>
      if t in s.sessions && (Wants(s.sessions[t]) ==> MutexFreeFor(s, t)) {
        StepKeeps(B, s, t, ch);
        StepGrows(B, s, t, ch);
      }
  }

  lemma StepGrows(B: nat, s: System, t: nat, ch: Choice)
    requires Inv(B, s) && AllCursorsOk(B, s) && t in s.sessions && CursorOk(B, s.box, s.sessions[t])
    ensures var box' := Next(B, s.box, s.sessions[t], ch).0;
            PrefixOf(s.box.contents, box'.contents) && PrefixOf(s.box.accepted, box'.accepted)
  {
    var se := s.sessions[t];
    assert SessionOk(B, s.box, se);
    if se.Publisher? {
      match se.pub
      case WriteBody(m) => AppendWrite(B, s.box.contents, m, ch.blockFree);
      case WriteEnd(m) => AppendWrite(B, s.box.contents, [0], ch.blockFree);
      case _ =>
    }
  }

  // ---------------------------------------------------------------- whole runs

  /** The log only grows, so a block that has filled up stays as it is. */
  ghost function Run(B: nat, s: System, acts: seq<Action>): (r: System)
    requires Inv(B, s)
    ensures Inv(B, r)
    ensures PrefixOf(s.box.contents, r.box.contents) && PrefixOf(s.box.accepted, r.box.accepted)
    ensures |s.box.contents| == B ==> r.box.contents == s.box.contents
    decreases |acts|
  {
    InvCursors(B, s);
    if acts == [] then s
    else
      ActKeeps(B, s, acts[0]);
      Run(B, Act(B, s, acts[0]), acts[1..])
  }

  lemma CreatedInv(B: nat)
    ensures Inv(B, CREATED)
  {
    assert Registrations(CREATED) == {} && Subscriptions(CREATED) == {};
  }

  /** At every moment the complete messages of the log are a prefix of the accepted ones. */
  lemma LogPrefix(B: nat, s: System)
    requires Inv(B, s)
    ensures PrefixOf(Parse(s.box.contents).0, s.box.accepted)
  {
    if t :| t in s.sessions && Holds(s.sessions[t]) {
      assert HolderOk(B, s.box, s.sessions[t]);
    }
  }

  /**
   Prefix delivery: in every interleaving of publishers and subscribers, however much is published, what a
   subscriber has been sent is a prefix of what write_message has accepted.
   */
  lemma PrefixDelivery(B: nat, acts: seq<Action>, t: nat)
    ensures Inv(B, CREATED)
    ensures var s := Run(B, CREATED, acts);
            t in s.sessions && s.sessions[t].Subscriber? ==> PrefixOf(s.sessions[t].sent, s.box.accepted)
  {
    CreatedInv(B);
    var s := Run(B, CREATED, acts);
    if t in s.sessions && s.sessions[t].Subscriber? {
      assert SessionOk(B, s.box, s.sessions[t]);
      ReadPrefix(s.sessions[t].sent, s.box.contents);
      LogPrefix(B, s);
    }
  }

  /** Every two subscribers agree: one has been sent a prefix of what the other has. */
  lemma SameOrder(B: nat, acts: seq<Action>, t: nat, u: nat)
    ensures Inv(B, CREATED)
    ensures var s := Run(B, CREATED, acts);
            t in s.sessions && u in s.sessions && s.sessions[t].Subscriber? && s.sessions[u].Subscriber? ==>
              PrefixOf(s.sessions[t].sent, s.sessions[u].sent) || PrefixOf(s.sessions[u].sent, s.sessions[t].sent)
  {
    PrefixDelivery(B, acts, t);
    PrefixDelivery(B, acts, u);
  }

  lemma CaughtUp(box: Box, se: Session)
    requires se.Subscriber? && PrefixOf(se.sent, box.accepted) && se.total == |Frames(se.sent)|
    requires se.total >= box.size == |Frames(box.accepted)|
    ensures se.sent == box.accepted
  {
    FramesLonger(se.sent, box.accepted);
  }

  lemma EndReached(B: nat, box: Box, se: Session)
    requires se.Subscriber? && se.sub.ReadByte? && SubOk(box.contents, se) && LogOk(B, box.contents, box.accepted)
    requires se.off == |box.contents| < B
    ensures se.sent == box.accepted
  {
    assert box.contents == Frames(se.sent) + se.sub.buf;
    ParseFrames(se.sent, se.sub.buf);
  }

  /**
   A subscriber that finds nothing new, or reaches the end of a file that is not full, has been sent every
   accepted message.
   */
  lemma NothingMissed(B: nat, acts: seq<Action>, t: nat)
    ensures Inv(B, CREATED)
    ensures var s := Run(B, CREATED, acts);
            t in s.sessions && s.sessions[t].Subscriber? ==>
              var se := s.sessions[t];
              && (se.sub.Test? && se.total >= s.box.size ==> se.sent == s.box.accepted)
              && (se.sub.ReadByte? && se.off == |s.box.contents| < B ==> se.sent == s.box.accepted)
  {
    PrefixDelivery(B, acts, t);
    var s := Run(B, CREATED, acts);
    if t in s.sessions && s.sessions[t].Subscriber? {
      var se := s.sessions[t];
      assert SessionOk(B, s.box, se) && (Holds(se) ==> HolderOk(B, s.box, se));
      if se.sub.Test? && se.total >= s.box.size {
        CaughtUp(s.box, se);
      } else if se.sub.ReadByte? && se.off == |s.box.contents| < B {
        EndReached(B, s.box, se);
      }
    }
  }

  /**
   Single appender: n_publishers counts the sessions between registration and deregistration and is 0 or 1, and
   before each message the active publisher's cursor is at the end of the file.
   */
  lemma SingleAppender(B: nat, acts: seq<Action>, t: nat)
    ensures Inv(B, CREATED)
    ensures var s := Run(B, CREATED, acts);
            && s.box.publishers == |Registrations(s)| <= 1
            && s.box.subscribers == |Subscriptions(s)|
            && (t in s.sessions && s.sessions[t].Publisher?
                && (s.sessions[t].pub.NextRequest? || s.sessions[t].pub.WantWrite? || s.sessions[t].pub.WriteBody?) ==>
                  s.sessions[t].off == |s.box.contents|)
  {
    CreatedInv(B);
    var s := Run(B, CREATED, acts);
    if t in s.sessions {
      assert SessionOk(B, s.box, s.sessions[t]);
    }
  }

  /** Cursor bound: no cursor passes the end of the file and no file passes the end of its block. */
  lemma CursorBound(B: nat, acts: seq<Action>, t: nat)
    ensures Inv(B, CREATED)
    ensures var s := Run(B, CREATED, acts);
            |s.box.contents| <= B && (t in s.sessions ==> s.sessions[t].off <= |s.box.contents|)
  {
    CreatedInv(B);
    InvCursors(B, Run(B, CREATED, acts));
  }

  /** Whenever the mutex is free, box size counts the accepted bytes; it is the file size until the block is full. */
  lemma BoxSize(B: nat, acts: seq<Action>)
    ensures Inv(B, CREATED)
    ensures var s := Run(B, CREATED, acts);
            MutexFree(s) ==>
              && s.box.size == |Frames(s.box.accepted)|
              && (|s.box.contents| < B ==> s.box.contents == Frames(s.box.accepted) && s.box.size == |s.box.contents|)
  {
    CreatedInv(B);
    var s := Run(B, CREATED, acts);
    FramesParse(s.box.contents);
  }
}
