/**
 The life of one box (mbroker/mbroker.c:282-468) as a transition system: any number of publisher and subscriber
 sessions step in any order, each call on the box's file is one step, and only the holder of the box mutex may
 take the steps that the code makes under it. A run starts when the box is created and ends before it is deleted.
 */
module BoxLog {
  import opened Bytes
  import opened Framing

  /** The box, the contents of its file, and the messages that write_message has accepted so far. */
  datatype Box = Box(contents: seq<byte>, size: nat, publishers: nat, subscribers: nat, accepted: seq<Message>)

  datatype PubStep =
    | Register                    // mbroker.c:300
    | CheckPublisher              // mbroker.c:302
    | OpenAppend                  // mbroker.c:310
    | CountIn                     // mbroker.c:319
    | Registered                  // mbroker.c:321
    | NextRequest                 // mbroker.c:332-345
    | WantWrite(m: Message)       // mbroker.c:348
    | WriteBody(m: Message)       // box.c:120-124
    | WriteEnd(m: Message)        // box.c:127
    | Resize(m: Message)          // mbroker.c:357
    | Written                     // mbroker.c:358-360
    | Failed                      // mbroker.c:353
    | WantLeave                   // mbroker.c:364
    | CountOut                    // mbroker.c:365
    | Left                        // mbroker.c:366
    | Rejected                    // mbroker.c:305, 314
    | PubDone

  datatype SubStep =
    | Subscribe                   // mbroker.c:398
    | OpenRead                    // mbroker.c:400
    | SubIn                       // mbroker.c:409
    | Subscribed                  // mbroker.c:410
    | WantRead                    // mbroker.c:418
    | Test                        // mbroker.c:420
    | Parked                      // mbroker.c:422
    | Woken                       // mbroker.c:422, taking the mutex back
    | ReadByte(buf: seq<byte>)    // box.c:139-145
    | Send(buf: seq<byte>)        // mbroker.c:434-443
    | Sent                        // mbroker.c:457
    | SubOut                      // mbroker.c:460-462
    | Unsubscribed                // mbroker.c:464
    | Refused                     // mbroker.c:404
    | SubDone

  /** A session: its handle's cursor and, for a subscriber, the bytes read and the messages sent to the client. */
  datatype Session =
    | Publisher(pub: PubStep, off: nat)
    | Subscriber(sub: SubStep, off: nat, total: nat, sent: seq<Message>)

  /** What the environment decides: whether a call succeeds, the next request, whether fs2 has a free block. */
  datatype Choice = Choice(ok: bool, request: Option<Message>, blockFree: bool)

  datatype System = System(box: Box, sessions: map<nat, Session>)

  predicate Wants(se: Session) {
    match se
    case Publisher(p, _) => p.Register? || p.WantWrite? || p.WantLeave?
    case Subscriber(p, _, _, _) => p.Subscribe? || p.WantRead? || p.Woken?
  }

  predicate Holds(se: Session) {
    match se
    case Publisher(p, _) => !Wants(se) && !p.NextRequest? && !p.PubDone?
    case Subscriber(p, _, _, _) => !Wants(se) && !p.Parked? && !p.SubDone?
  }

  /** `n_publishers--` on a 64-bit unsigned counter. */
  function Decrement(n: nat): nat {
    if n == 0 then 0xFFFF_FFFF_FFFF_FFFF else n - 1
  }

  predicate CursorOk(B: nat, box: Box, se: Session) {
    se.off <= |box.contents| <= B
  }

  function NextPub(B: nat, box: Box, p: PubStep, off: nat, ch: Choice): (Box, Session)
    requires off <= |box.contents| <= B
  {
    match p
    case Register => (box, Publisher(CheckPublisher, off))
    case CheckPublisher => (box, Publisher(if box.publishers == 1 then Rejected else OpenAppend, off))
    case OpenAppend => (box, if ch.ok then Publisher(CountIn, |box.contents|) else Publisher(Rejected, off))
    case CountIn => (box.(publishers := box.publishers + 1), Publisher(Registered, off))
    case Registered => (box, Publisher(NextRequest, off))
    case NextRequest =>
      var step := if ch.request.Some? && NulFree(ch.request.value) then WantWrite(ch.request.value) else WantLeave;
      (box, Publisher(step, off))
    case WantWrite(m) => (box, Publisher(WriteBody(m), off))
    case WriteBody(m) =>
      var (c, off', ret) := FileWrite(B, box.contents, off, m, ch.blockFree);
      (box.(contents := c), Publisher(if ret == |m| then WriteEnd(m) else Failed, off'))
    case WriteEnd(m) =>
      var (c, off', ret) := FileWrite(B, box.contents, off, [0], ch.blockFree);
      if ret == -1 then (box.(contents := c), Publisher(Failed, off'))
      else (box.(contents := c, accepted := box.accepted + [m]), Publisher(Resize(m), off'))
    case Resize(m) => (box.(size := box.size + |m| + 1), Publisher(Written, off))
    case Written => (box, Publisher(NextRequest, off))
    case Failed => (box, Publisher(WantLeave, off))
    case WantLeave => (box, Publisher(CountOut, off))
    case CountOut => (box.(publishers := Decrement(box.publishers)), Publisher(Left, off))
    case Left => (box, Publisher(PubDone, off))
    case Rejected => (box, Publisher(PubDone, off))
    case PubDone => (box, Publisher(PubDone, off))
  }

  /** A parked subscriber may wake at any time: cond_wait returns on a broadcast or spuriously. */
  function NextSub(B: nat, box: Box, se: Session, ch: Choice): (Box, Session)
    requires se.Subscriber? && CursorOk(B, box, se)
  {
    match se.sub
    case Subscribe => (box, se.(sub := OpenRead))
    case OpenRead => (box, if ch.ok then se.(sub := SubIn, off := 0) else se.(sub := Refused))
    case SubIn => (box.(subscribers := box.subscribers + 1), se.(sub := Subscribed))
    case Subscribed => (box, se.(sub := WantRead, total := 0))
    case WantRead => (box, se.(sub := Test))
    case Test => (box, se.(sub := if se.total >= box.size then Parked else ReadByte([])))
    case Parked => (box, se.(sub := Woken))
    case Woken => (box, se.(sub := ReadByte([])))
    case ReadByte(buf) =>
      if se.off == |box.contents| then (box, se.(sub := SubOut))
      else
        var b := box.contents[se.off];
        (box, se.(sub := if b == 0 then Send(buf + [b]) else ReadByte(buf + [b]), off := se.off + 1))
    case Send(buf) =>
      var se' := se.(total := se.total + |buf|);
      (box, if ch.ok then se'.(sub := Sent, sent := se.sent + [CStr(buf)]) else se'.(sub := SubOut))
    case Sent => (box, se.(sub := WantRead))
    case SubOut => (box.(subscribers := Decrement(box.subscribers)), se.(sub := Unsubscribed))
    case Unsubscribed => (box, se.(sub := SubDone))
    case Refused => (box, se.(sub := SubDone))
    case SubDone => (box, se)
  }

  function Next(B: nat, box: Box, se: Session, ch: Choice): (r: (Box, Session))
    requires CursorOk(B, box, se)
    ensures CursorOk(B, r.0, r.1)
  {
    if se.Publisher? then NextPub(B, box, se.pub, se.off, ch) else NextSub(B, box, se, ch)
  }

  predicate MutexFreeFor(s: System, t: nat) {
    forall u :: u in s.sessions && u != t ==> !Holds(s.sessions[u])
  }

  predicate AllCursorsOk(B: nat, s: System) {
    |s.box.contents| <= B && forall t :: t in s.sessions ==> CursorOk(B, s.box, s.sessions[t])
  }

  datatype Action = Arrive(t: nat, publisher: bool) | Step(t: nat, choice: Choice)

  function Arriving(publisher: bool): Session {
    if publisher then Publisher(Register, 0) else Subscriber(Subscribe, 0, 0, [])
  }

  /** A session that ended stays, with what it was sent; actions that cannot happen leave the state alone. */
  function Act(B: nat, s: System, a: Action): System
    requires AllCursorsOk(B, s)
  {
    match a
    case Arrive(t, publisher) =>
      if t in s.sessions then s else s.(sessions := s.sessions[t := Arriving(publisher)])
    case Step(t, ch) =>
      if t !in s.sessions || (Wants(s.sessions[t]) && !MutexFreeFor(s, t)) then s
      else
        var (box, se) := Next(B, s.box, s.sessions[t], ch);
        System(box, s.sessions[t := se])
  }

  /** A box just created. */
  const CREATED := System(Box([], 0, 0, 0, []), map[])
}
