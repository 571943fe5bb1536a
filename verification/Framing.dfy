/**
 The message log of a box: messages stored one after another in a block-bounded file, each closed by a NUL
 (mbroker/box.c:118-148), over the atomic reads and writes of fs2 (fs2/operations.c:186-284).
 */
module Framing {
  import opened Bytes

  type Message = seq<byte>

  predicate Clean(ms: seq<Message>) {
    forall i :: 0 <= i < |ms| ==> NulFree(ms[i])
  }

  function Frames(ms: seq<Message>): seq<byte> {
    if ms == [] then [] else Frames(ms[..|ms| - 1]) + ms[|ms| - 1] + [0]
  }

  /** The complete messages of a log and the bytes after the last terminator. */
  function Parse(c: seq<byte>): (r: (seq<Message>, Message))
    ensures Clean(r.0) && NulFree(r.1)
  {
    if c == [] then ([], [])
    else
      var (ms, tail) := Parse(c[..|c| - 1]);
      var b := c[|c| - 1];
      if b == 0 then (ms + [tail], []) else (ms, tail + [b])
  }

  predicate PrefixOf<T(==)>(a: seq<T>, b: seq<T>) {
    |a| <= |b| && a == b[..|a|]
  }

  lemma FramesSnoc(ms: seq<Message>, m: Message)
    ensures Frames(ms + [m]) == Frames(ms) + m + [0]
  {
    assert (ms + [m])[..|ms|] == ms;
  }

  lemma ParseSnoc(c: seq<byte>, b: byte)
    ensures var p := Parse(c);
            Parse(c + [b]) == if b == 0 then (p.0 + [p.1], []) else (p.0, p.1 + [b])
  {
    assert (c + [b])[..|c|] == c;
  }

  /** NUL-free bytes only lengthen the unfinished tail. */
  lemma {:induction false} ParseTail(c: seq<byte>, x: Message)
    requires NulFree(x)
    ensures Parse(c + x) == (Parse(c).0, Parse(c).1 + x)
  {
    if x == [] {
      assert c + x == c && Parse(c).1 + x == Parse(c).1;
    } else {
      var y := x[..|x| - 1];
      ParseTail(c, y);
      assert c + x == (c + y) + [x[|x| - 1]];
      ParseSnoc(c + y, x[|x| - 1]);
      assert Parse(c).1 + y + [x[|x| - 1]] == Parse(c).1 + x;
    }
  }

  /** Parsing inverts framing, on every list of NUL-free messages and every unfinished tail. */
  lemma {:induction false} ParseFrames(ms: seq<Message>, tail: Message)
    requires Clean(ms) && NulFree(tail)
    ensures Parse(Frames(ms) + tail) == (ms, tail)
  {
    if ms == [] {
      assert Frames(ms) + tail == [] + tail;
    } else {
      var front, m := ms[..|ms| - 1], ms[|ms| - 1];
      ParseFrames(front, m);
      ParseSnoc(Frames(front) + m, 0);
      assert front + [m] == ms;
    }
    ParseTail(Frames(ms), tail);
    assert Parse(Frames(ms)) == (ms, []);
    assert [] + tail == tail;
  }

  /** Framing inverts parsing. */
  lemma {:induction false} FramesParse(c: seq<byte>)
    ensures c == Frames(Parse(c).0) + Parse(c).1
  {
    if c != [] {
      var front := c[..|c| - 1];
      FramesParse(front);
      var (ms, tail) := Parse(front);
      if c[|c| - 1] == 0 { FramesSnoc(ms, tail); }
    }
  }

  /** Appending to a log keeps its complete messages. */
  lemma {:induction false} ParseGrows(c: seq<byte>, d: seq<byte>)
    requires PrefixOf(c, d)
    ensures PrefixOf(Parse(c).0, Parse(d).0)
    decreases |d|
  {
    if c != d { ParseGrows(c, d[..|d| - 1]); }
  }

  /** Whoever has read whole frames off the front of a log has read a prefix of its messages. */
  lemma ReadPrefix(ms: seq<Message>, c: seq<byte>)
    requires Clean(ms) && PrefixOf(Frames(ms), c)
    ensures PrefixOf(ms, Parse(c).0)
  {
    ParseFrames(ms, []);
    assert Frames(ms) + [] == Frames(ms);
    ParseGrows(Frames(ms), c);
  }

  lemma {:induction false} FramesLonger(a: seq<Message>, b: seq<Message>)
    requires PrefixOf(a, b)
    ensures PrefixOf(Frames(a), Frames(b))
    ensures |Frames(a)| >= |Frames(b)| ==> a == b
    decreases |b|
  {
    if a != b { FramesLonger(a, b[..|b| - 1]); }
  }

  // ---------------------------------------------------------------- the file under a box

  /** tfs_write at the cursor: contents, cursor and return value. An empty file needs a free block. */
  function FileWrite(B: nat, c: seq<byte>, off: nat, data: seq<byte>, blockFree: bool): (r: (seq<byte>, nat, int))
    requires off <= |c| <= B
    ensures r.1 <= |r.0| <= B
    ensures r.2 == -1 <==> c == [] && data != [] && !blockFree && B > 0
    ensures r.2 == -1 ==> r.0 == c && r.1 == off
    ensures r.2 != -1 ==> r.2 == Clip(B, off, |data|) && r.1 == off + r.2
  {
    var n := Clip(B, off, |data|);
    if n > 0 && |c| == 0 && !blockFree then (c, off, -1) else (Overwrite(c, off, data[..n]), off + n, n)
  }

  /** write_message: the return value is the length of the message, or -1. */
  function WriteMessage(B: nat, c: seq<byte>, off: nat, m: Message, blockFree: bool): (r: (seq<byte>, nat, int))
    requires off <= |c| <= B
    ensures r.1 <= |r.0| <= B
  {
    var (c1, off1, ret) := FileWrite(B, c, off, m, blockFree);
    if ret != |m| then (c1, off1, -1)
    else
      var (c2, off2, ret2) := FileWrite(B, c1, off1, [0], blockFree);
      if ret2 == -1 then (c2, off2, -1) else (c2, off2, ret)
  }

  /** read_message: the bytes read, NUL included, or nothing when the file ends first; the cursor moves either way. */
  function ReadMessage(c: seq<byte>, off: nat): (r: (Option<seq<byte>>, nat))
    requires off <= |c|
    ensures r.1 <= |c|
    decreases |c| - off
  {
    if off == |c| then (None, off)
    else if c[off] == 0 then (Some([0]), off + 1)
    else
      var (rest, end) := ReadMessage(c, off + 1);
      (match rest case None => None case Some(x) => Some([c[off]] + x), end)
  }

  /** Writing at the end of the file appends what fits; whatever does not fit leaves the file full. */
  lemma AppendWrite(B: nat, c: seq<byte>, data: seq<byte>, blockFree: bool)
    requires |c| <= B
    ensures var (c', off', ret) := FileWrite(B, c, |c|, data, blockFree);
            && off' == |c'|
            && (ret == -1 ==> c' == c)
            && (ret != -1 ==> 0 <= ret <= |data| && c' == c + data[..ret])
            && (0 <= ret < |data| ==> |c'| == B)
  {
  }

  /** A message is refused exactly when its bytes do not fit or an empty file gets no block; else its length returns. */
  lemma WriteMessageReturns(B: nat, c: seq<byte>, off: nat, m: Message, blockFree: bool)
    requires off <= |c| <= B
    ensures var ret := WriteMessage(B, c, off, m, blockFree).2;
            && (ret == -1 <==> off + |m| > B || (c == [] && !blockFree && B > 0))
            && (ret != -1 ==> ret == |m|)
  {
    var (c1, off1, ret) := FileWrite(B, c, off, m, blockFree);
    if ret != -1 && m != [] && ret == |m| { assert c1 != []; }
  }

  /** What write_message appends: the message and as much of its terminator as fits, or as much of it as fits. */
  lemma WriteMessageAppends(B: nat, c: seq<byte>, m: Message, blockFree: bool)
    requires |c| <= B
    ensures var (c', off', ret) := WriteMessage(B, c, |c|, m, blockFree);
            && off' == |c'|
            && (ret != -1 ==> c' == c + m + if |c| + |m| < B then [0] else [])
            && (ret == -1 && |c| + |m| > B ==>
                  c' == c + m[..B - |c|] || (c' == c && c == [] && !blockFree))
            && (ret == -1 && |c| + |m| <= B ==> c' == c)
  {
    AppendWrite(B, c, m, blockFree);
    var (c1, off1, ret) := FileWrite(B, c, |c|, m, blockFree);
    if ret == |m| {
      assert c1 == c + m;
      AppendWrite(B, c1, [0], blockFree);
    }
  }

  // ---------------------------------------------------------------- framing round trip

  /** A publisher writing a list of messages; stops at the first that fails. */
  function WriteAll(B: nat, c: seq<byte>, off: nat, ms: seq<Message>): (r: (seq<byte>, nat, bool))
    requires off <= |c| <= B
    ensures r.1 <= |r.0| <= B
    decreases |ms|
  {
    if ms == [] then (c, off, true)
    else
      var (c', off', ret) := WriteMessage(B, c, off, ms[0], true);
      if ret == -1 then (c', off', false) else WriteAll(B, c', off', ms[1..])
  }

  /** A subscriber reading until the first failure. */
  function ReadAll(c: seq<byte>, off: nat): seq<Message>
    requires off <= |c|
    decreases |c| - off
  {
    match ReadMessage(c, off)
    case (None, _) => []
    case (Some(x), end) =>
      ReadAdvances(c, off);
      [CStr(x)] + ReadAll(c, end)
  }

  lemma {:induction false} ReadAdvances(c: seq<byte>, off: nat)
    requires off <= |c|
    ensures ReadMessage(c, off).0.Some? ==> off < ReadMessage(c, off).1
    ensures ReadMessage(c, off).0.Some? ==> ReadMessage(c, off).1 == off + |ReadMessage(c, off).0.value|
    decreases |c| - off
  {
    if off < |c| && c[off] != 0 { ReadAdvances(c, off + 1); }
  }

  /** Reading one message: exactly the next frame, or failure when only an unfinished tail is left. */
  lemma {:induction false} ReadOne(before: seq<byte>, m: Message, rest: seq<byte>)
    requires NulFree(m)
    ensures ReadMessage(before + m + [0] + rest, |before|) == (Some(m + [0]), |before| + |m| + 1)
    ensures ReadMessage(before + m, |before|) == (None, |before| + |m|)
    decreases |m|
  {
    var c, d := before + m + [0] + rest, before + m;
    if m == [] {
      assert c[|before|] == 0 && m + [0] == [0];
    } else {
      assert c[|before|] == m[0];
      ReadOne(before + [m[0]], m[1..], rest);
      assert before + [m[0]] + m[1..] == d;
      assert before + [m[0]] + m[1..] + [0] + rest == c;
      assert [m[0]] + (m[1..] + [0]) == m + [0];
    }
  }

  function Join(ms: seq<Message>): seq<byte> {
    if ms == [] then [] else ms[0] + [0] + Join(ms[1..])
  }

  lemma {:induction false} JoinSnoc(ms: seq<Message>, m: Message)
    ensures Join(ms + [m]) == Join(ms) + m + [0]
  {
    if ms != [] {
      JoinSnoc(ms[1..], m);
      assert (ms + [m])[1..] == ms[1..] + [m];
    }
  }

  lemma {:induction false} JoinIsFrames(ms: seq<Message>)
    ensures Join(ms) == Frames(ms)
  {
    if ms != [] {
      var front := ms[..|ms| - 1];
      JoinIsFrames(front);
      JoinSnoc(front, ms[|ms| - 1]);
      assert front + [ms[|ms| - 1]] == ms;
    }
  }

  lemma {:induction false} WriteAllJoins(B: nat, c: seq<byte>, ms: seq<Message>)
    requires |c| + |Join(ms)| <= B
    ensures var d := c + Join(ms); WriteAll(B, c, |c|, ms) == (d, |d|, true)
    decreases |ms|
  {
    if ms != [] {
      var c1 := c + ms[0];
      AppendWrite(B, c, ms[0], true);
      AppendWrite(B, c1, [0], true);
      assert ms[0][..|ms[0]|] == ms[0] && [0][..1] == [0 as byte];
      assert WriteMessage(B, c, |c|, ms[0], true) == (c1 + [0], |c1| + 1, |ms[0]|);
      WriteAllJoins(B, c1 + [0], ms[1..]);
      assert c + Join(ms) == c1 + [0] + Join(ms[1..]);
    } else {
      assert c + Join(ms) == c;
    }
  }

  lemma {:induction false} ReadAllJoined(before: seq<byte>, ms: seq<Message>, tail: Message)
    requires Clean(ms) && NulFree(tail)
    ensures ReadAll(before + Join(ms) + tail, |before|) == ms
    decreases |ms|
  {
    var c := before + Join(ms) + tail;
    if ms == [] {
      assert c == before + tail;
      ReadOne(before, tail, []);
    } else {
      var m, next := ms[0], before + ms[0] + [0];
      assert c == before + m + [0] + (Join(ms[1..]) + tail);
      ReadOne(before, m, Join(ms[1..]) + tail);
      assert m + [0] == m + [0] + [];
      CStrOfTerminated(m, []);
      assert c == next + Join(ms[1..]) + tail;
      ReadAllJoined(next, ms[1..], tail);
    }
  }

  /**
   Framing round trip: messages that fit are all accepted, the file grows to exactly their frames, and reading
   from the start returns exactly that list and then fails; empty messages included.
   */
  lemma RoundTrip(B: nat, ms: seq<Message>)
    requires Clean(ms) && |Frames(ms)| <= B
    ensures WriteAll(B, [], 0, ms) == (Frames(ms), |Frames(ms)|, true)
    ensures ReadAll(Frames(ms), 0) == ms
    ensures ReadMessage(Frames(ms), |Frames(ms)|).0.None?
  {
    JoinIsFrames(ms);
    WriteAllJoins(B, [], ms);
    assert [] + Join(ms) + [] == Frames(ms);
    assert [] + Join(ms) == Frames(ms);
    ReadAllJoined([], ms, []);
  }

  /** Of any log, a reader gets exactly the complete messages. */
  lemma ReadAllParses(c: seq<byte>)
    ensures ReadAll(c, 0) == Parse(c).0
  {
    var (ms, tail) := Parse(c);
    FramesParse(c);
    JoinIsFrames(ms);
    assert c == [] + Join(ms) + tail;
    ReadAllJoined([], ms, tail);
  }
}
