/**
 The table of boxes and the file system under it (mbroker/box.c:40-113, mbroker/mbroker.c:509-569,
 fs2/operations.c, fs2/state.c), for manager requests handled one after another. Sessions may open and close
 handles and move box sizes and session counts between requests.
 */
module BoxTable {
  import opened Bytes
  import opened Directory

  /** A slot of mbroker_boxes. The name leaves out the '/' that box_initialize puts in front. */
  datatype BoxSlot = BoxSlot(used: bool, name: Name, size: nat, publishers: nat, subscribers: nat)

  /** The fs2 tables: directory slots, TAKEN inodes, TAKEN open-file entries. */
  datatype Files = Files(dir: seq<Slot>, taken: seq<bool>, open: seq<bool>)

  datatype State = State(files: Files, boxes: seq<BoxSlot>, count: int)

  // ---------------------------------------------------------------- files

  /** tfs_open(name, TFS_O_CREAT) and the tfs_close after it. With no handle left the new file stays behind. */
  function CreateFile(fs: Files, n: Name): (Files, bool) {
    if |n| == 0 then (fs, false)
    else
      var registered := FirstFree(fs.open) < |fs.open|;
      if Find(fs.dir, n) >= 0 then (fs, registered)
      else
        var i := FirstFree(fs.taken);
        if i == |fs.taken| then (fs, false)
        else
          match Add(fs.dir, n, i)
          case None => (fs, false)
          case Some(d) => (fs.(dir := d, taken := fs.taken[i := true]), registered)
  }

  /** tfs_unlink: inode_delete aborts the broker when the inode is not TAKEN. */
  datatype Unlinked = Aborted | Done(files: Files, ok: bool)

  function UnlinkFile(fs: Files, n: Name): Unlinked {
    var i := Find(fs.dir, n);
    if |n| == 0 || i == -1 then Done(fs, false)
    else if !(0 <= i < |fs.taken|) || !fs.taken[i] then Aborted
    else
      var fs' := fs.(taken := fs.taken[i := false]);
      match Clear(fs.dir, n)
      case None => Done(fs', false)
      case Some(d) => Done(fs'.(dir := d), true)
  }

  // ---------------------------------------------------------------- boxes

  /** get_box: the first USED slot with this name, or the length of the table. */
  function GetBox(boxes: seq<BoxSlot>, n: Name, i: nat := 0): (k: nat)
    requires i <= |boxes|
    ensures i <= k <= |boxes|
    ensures k < |boxes| ==> boxes[k].used && boxes[k].name == n
    ensures forall j :: i <= j < k ==> !(boxes[j].used && boxes[j].name == n)
    decreases |boxes| - i
  {
    if i == |boxes| || (boxes[i].used && boxes[i].name == n) then i else GetBox(boxes, n, i + 1)
  }

  function UnusedSlot(boxes: seq<BoxSlot>, i: nat := 0): (k: nat)
    requires i <= |boxes|
    ensures i <= k <= |boxes|
    ensures k < |boxes| ==> !boxes[k].used
    ensures forall j :: i <= j < k ==> boxes[j].used
    decreases |boxes| - i
  {
    if i == |boxes| || !boxes[i].used then i else UnusedSlot(boxes, i + 1)
  }

  function NewBox(n: Name): BoxSlot {
    BoxSlot(true, n, 0, 0, 0)
  }

  /** create_box and the count of handle_manager; success is reported even if no slot was free. */
  function CreateBox(s: State, n: Name): (State, bool) {
    if GetBox(s.boxes, n) < |s.boxes| then (s, false)
    else
      var (fs, ok) := CreateFile(s.files, n);
      if !ok then (s.(files := fs), false)
      else
        var k := UnusedSlot(s.boxes);
        (State(fs, if k < |s.boxes| then s.boxes[k := NewBox(n)] else s.boxes, s.count + 1), true)
  }

  datatype Deletion = Crash | Reply(state: State, ok: bool)

  /** delete_box and the count of handle_manager. */
  function DeleteBox(s: State, n: Name): Deletion {
    var k := GetBox(s.boxes, n);
    if k == |s.boxes| then Reply(s, false)
    else
      match UnlinkFile(s.files, s.boxes[k].name)
      case Aborted => Crash
      case Done(fs, ok) =>
        if !ok then Reply(s.(files := fs), false)
        else Reply(State(fs, s.boxes[k := s.boxes[k].(used := false)], s.count - 1), true)
  }

  // ---------------------------------------------------------------- listing

  datatype Record = Record(last: bool, name: Name, size: nat, publishers: nat, subscribers: nat)

  /** The USED boxes in slot order. */
  function UsedBoxes(boxes: seq<BoxSlot>): seq<BoxSlot> {
    if boxes == [] then []
    else
      var front, b := boxes[..|boxes| - 1], boxes[|boxes| - 1];
      UsedBoxes(front) + if b.used then [b] else []
  }

  function RecordOf(b: BoxSlot, last: bool): Record {
    Record(last, b.name, b.size, b.publishers, b.subscribers)
  }

  /** One record per USED box, the flag set on the final one only. */
  function Listing(boxes: seq<BoxSlot>): seq<Record> {
    var used := UsedBoxes(boxes);
    seq(|used|, k requires 0 <= k < |used| => RecordOf(used[k], k == |used| - 1))
  }

  /** What the manager's receive loop collects from its pipe, and what it leaves unread. */
  function Collect(pipe: seq<Record>): (r: (seq<Record>, seq<Record>))
    ensures r.0 + r.1 == pipe
  {
    if pipe == [] then ([], [])
    else if pipe[0].last then ([pipe[0]], pipe[1..])
    else
      var (got, rest) := Collect(pipe[1..]);
      ([pipe[0]] + got, rest)
  }

  // ---------------------------------------------------------------- invariant

  ghost function Used(boxes: seq<BoxSlot>): set<int> {
    set k | 0 <= k < |boxes| && boxes[k].used
  }

  /** Every entry names a TAKEN inode other than the root, and every such inode has exactly one entry. */
  ghost predicate FilesOk(fs: Files) {
    && 0 < |fs.taken| && fs.taken[ROOT] && DirInv(fs.dir)
    && (forall k :: 0 <= k < |fs.dir| && Occupied(fs.dir[k]) ==> ROOT < fs.dir[k].inum < |fs.taken|)
    && (forall i :: ROOT < i < |fs.taken| ==> OneEntry(fs.dir, fs.taken, i))
  }

  ghost predicate OneEntry(d: seq<Slot>, taken: seq<bool>, i: int)
    requires 0 <= i < |taken|
  {
    LinkCount(d, i) == if taken[i] then 1 else 0
  }

  /** USED boxes have distinct names, each the name of a file. */
  ghost predicate BoxesOk(s: State) {
    && (forall j, k :: 0 <= j < k < |s.boxes| && s.boxes[j].used && s.boxes[k].used ==>
        s.boxes[j].name != s.boxes[k].name)
    && (forall k :: 0 <= k < |s.boxes| && s.boxes[k].used ==> Find(s.files.dir, s.boxes[k].name) != -1)
  }

  /** The broker asks for as many inodes as it has box slots (mbroker/mbroker.c:70). */
  ghost predicate Inv(s: State) {
    && |s.files.taken| == |s.boxes|
    && FilesOk(s.files) && BoxesOk(s)
    && s.count == |Used(s.boxes)|
  }
}
