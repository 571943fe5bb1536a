/** The broker's box table updated in place (mbroker/box.c, mbroker/mbroker.c), over the fs2 tables as values. */
module Broker {
  import opened Bytes
  import opened Directory
  import opened BoxTable
  import opened BoxTableProofs

  class Broker {
    const boxes: array<BoxSlot>
    var count: int
    var files: Files

    ghost function View(): (s: State)
      reads this, boxes
    {
      State(files, boxes[..], count)
    }

    ghost predicate Valid()
      reads this, boxes
    {
      Inv(View())
    }

    /** init_mbroker, given the tables that tfs_init left. */
    constructor (slots: nat, dir: seq<Slot>, handles: nat)
      requires slots > 0 && forall k :: 0 <= k < |dir| ==> !Occupied(dir[k])
      ensures Valid() && fresh(boxes) && Started(View()) && files.dir == dir && |files.open| == handles
    {
      boxes := new BoxSlot[slots](_ => BoxSlot(false, [], 0, 0, 0));
      count := 0;
      files := Files(dir, seq(slots, i => i == ROOT), seq(handles, _ => false));
      new;
      StartedInv(View());
    }

    method FindBox(n: Name) returns (k: nat)
      ensures k == GetBox(boxes[..], n)
    {
      k := 0;
      while k < boxes.Length && !(boxes[k].used && boxes[k].name == n)
        invariant k <= boxes.Length
        invariant GetBox(boxes[..], n, k) == GetBox(boxes[..], n)
      {
        k := k + 1;
      }
    }

    /** create_box; the slot search relies on the file system having had room for the file. */
    method Create(n: Name) returns (ok: bool)
      requires Valid() && NulFree(n)
      modifies this, boxes
      ensures Valid()
      ensures (View(), ok) == CreateBox(old(View()), n)
    {
      CreateBoxKeeps(View(), n);
      var k := FindBox(n);
      if k < boxes.Length {
        return false;
      }
      ghost var s := View();
      var (fs, registered) := CreateFile(files, n);
      files := fs;
      if !registered {
        return false;
      }
      SlotSuffices(s, n);
      var i := 0;
      while i < boxes.Length && boxes[i].used
        invariant i <= boxes.Length && boxes[..] == s.boxes
        invariant UnusedSlot(s.boxes, i) == UnusedSlot(s.boxes)
      {
        i := i + 1;
      }
      boxes[i] := NewBox(n);
      count := count + 1;
      return true;
    }

    /** delete_box, when the box has no session. */
    method Delete(n: Name) returns (ok: bool)
      requires Valid()
      modifies this, boxes
      ensures Valid()
      ensures DeleteBox(old(View()), n) == Reply(View(), ok)
    {
      DeleteBoxKeeps(View(), n);
      var k := FindBox(n);
      if k == boxes.Length {
        return false;
      }
      var r := UnlinkFile(files, boxes[k].name);
      files := r.files;
      boxes[k] := boxes[k].(used := false);
      count := count - 1;
      return true;
    }

    /** handle_list: the records sent, in order; it relies on box_count, which serialized requests keep exact. */
    method List() returns (sent: seq<Record>)
      requires count == |Used(boxes[..])|
      ensures sent == Listing(boxes[..])
    {
      sent := [];
      var i := 0;
      ghost var all := boxes[..];
      UsedBoxesCount(all);
      while i < boxes.Length && |sent| != count
        invariant i <= boxes.Length
        invariant |sent| == |UsedBoxes(all[..i])|
        invariant forall k :: 0 <= k < |sent| ==> sent[k] == RecordOf(UsedBoxes(all[..i])[k], k + 1 == count)
      {
        assert all[..i + 1][..i] == all[..i];
        if boxes[i].used {
          sent := sent + [RecordOf(boxes[i], |sent| + 1 == count)];
        }
        i := i + 1;
      }
      UsedPrefix(all, i);
      assert all[..|all|] == all;
    }
  }

  /** USED boxes of the first slots come first; when they are all of them, nothing follows. */
  lemma {:induction false} UsedPrefix(boxes: seq<BoxSlot>, i: nat)
    requires i <= |boxes|
    ensures |UsedBoxes(boxes[..i])| <= |UsedBoxes(boxes)|
    ensures UsedBoxes(boxes[..i]) == UsedBoxes(boxes)[..|UsedBoxes(boxes[..i])|]
    decreases |boxes|
  {
    if i < |boxes| {
      var front := boxes[..|boxes| - 1];
      UsedPrefix(front, i);
      assert front[..i] == boxes[..i];
    } else {
      assert boxes[..i] == boxes;
    }
  }

  /** The manager's receive loop (manager/manager.c:92-111) over its pipe. */
  method Receive(pipe: seq<Record>) returns (got: seq<Record>, rest: seq<Record>)
    ensures (got, rest) == Collect(pipe)
  {
    got, rest := [], pipe;
    while rest != []
      invariant Collect(pipe).0 == got + Collect(rest).0
      invariant Collect(pipe).1 == Collect(rest).1
      decreases |rest|
    {
      var r := rest[0];
      ghost var tail := Collect(rest).0;
      if r.last {
        return got + [r], rest[1..];
      }
      assert got + tail == got + [r] + Collect(rest[1..]).0;
      got, rest := got + [r], rest[1..];
    }
    assert got + [] == got;
  }
}
