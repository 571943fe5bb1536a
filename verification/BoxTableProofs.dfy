/** Box slots suffice, the file under a USED box is always there, and a listing reaches the manager intact. */
module BoxTableProofs {
  import opened Bytes
  import opened Directory
  import opened BoxTable

  // ---------------------------------------------------------------- files

  lemma Referenced(fs: Files, n: Name)
    requires FilesOk(fs) && Find(fs.dir, n) != -1
    ensures ROOT < Find(fs.dir, n) < |fs.taken| && fs.taken[Find(fs.dir, n)]
  {
    var k := FindSlot(fs.dir, n);
    assert Occupied(fs.dir[k]) && k in Refs(fs.dir, fs.dir[k].inum);
    assert OneEntry(fs.dir, fs.taken, fs.dir[k].inum);
  }

  /** Different names have different inodes. */
  lemma DistinctInodes(fs: Files, m: Name, n: Name)
    requires FilesOk(fs) && m != n && Find(fs.dir, m) != -1 && Find(fs.dir, n) != -1
    ensures Find(fs.dir, m) != Find(fs.dir, n)
  {
    var j, k, i := FindSlot(fs.dir, m), FindSlot(fs.dir, n), Find(fs.dir, m);
    Referenced(fs, m);
    var r := Refs(fs.dir, i);
    assert OneEntry(fs.dir, fs.taken, i);
    assert j in r && |r - {j}| == 0;
    assert k !in r - {j};
  }

  lemma CreateFileKeeps(fs: Files, n: Name)
    requires FilesOk(fs) && NulFree(n)
    ensures var (fs', ok) := CreateFile(fs, n);
            && FilesOk(fs') && |fs'.taken| == |fs.taken| && |fs'.dir| == |fs.dir| && fs'.open == fs.open
            && (ok ==> Find(fs'.dir, n) != -1)
            && (forall m :: m != n ==> Find(fs'.dir, m) == Find(fs.dir, m))
            && (Find(fs.dir, n) != -1 ==> fs' == fs)
  {
    var i := FirstFree(fs.taken);
    if |n| > 0 && Find(fs.dir, n) == -1 && i < |fs.taken| && Add(fs.dir, n, i).Some? {
      AddEffect(fs.dir, n, i);
      AddedFinds(fs.dir, n, i);
      var d, taken' := Add(fs.dir, n, i).value, fs.taken[i := true];
      forall j | ROOT < j < |taken'| ensures OneEntry(d, taken', j) {
        assert OneEntry(fs.dir, fs.taken, j);
      }
    } else if Find(fs.dir, n) != -1 {
      Referenced(fs, n);
    }
  }

  lemma AddedFinds(d: seq<Slot>, n: Name, i: int)
    requires DirInv(d) && NulFree(n) && Find(d, n) == -1 && i >= 0 && Add(d, n, i).Some?
    ensures Find(Add(d, n, i).value, n) == i
    ensures forall m :: m != n ==> Find(Add(d, n, i).value, m) == Find(d, m)
  {
    AddEffect(d, n, i);
    var d' := Add(d, n, i).value;
    forall m ensures Find(d', m) == if m == n then i else Find(d, m) {
      FindIffNamed(d, m);
      FindIffNamed(d', m);
    }
  }

  lemma ClearedFinds(d: seq<Slot>, n: Name)
    requires DirInv(d) && n != [] && Find(d, n) != -1
    ensures Clear(d, n).Some?
    ensures forall m :: m != n ==> Find(Clear(d, n).value, m) == Find(d, m)
  {
    ClearEffect(d, n);
    var d' := Clear(d, n).value;
    forall m | m != n ensures Find(d', m) == Find(d, m) {
      FindIffNamed(d, m);
      FindIffNamed(d', m);
    }
  }

  /** Unlinking the file of a name that exists never fails and never aborts. */
  lemma UnlinkFileKeeps(fs: Files, n: Name)
    requires FilesOk(fs) && Find(fs.dir, n) != -1
    ensures var r := UnlinkFile(fs, n);
            && r.Done? && r.ok && FilesOk(r.files)
            && |r.files.taken| == |fs.taken| && |r.files.dir| == |fs.dir| && r.files.open == fs.open
            && !r.files.taken[Find(fs.dir, n)] && Find(r.files.dir, n) == -1
            && (forall m :: m != n ==> Find(r.files.dir, m) == Find(fs.dir, m))
  {
    Referenced(fs, n);
    FindIffNamed(fs.dir, n);
    ClearEffect(fs.dir, n);
    ClearedFinds(fs.dir, n);
    FindIffNamed(Clear(fs.dir, n).value, n);
    var i := Find(fs.dir, n);
    var d, taken' := Clear(fs.dir, n).value, fs.taken[i := false];
    forall j | ROOT < j < |taken'| ensures OneEntry(d, taken', j) {
      assert OneEntry(fs.dir, fs.taken, j);
    }
  }

  // ---------------------------------------------------------------- counting boxes

  /** The interval that holds every non-root inode. */
  lemma {:induction false} IntervalSize(s: set<int>, lo: int, hi: int)
    requires lo <= hi && forall i :: i in s ==> lo <= i < hi
    ensures |s| <= hi - lo
    decreases hi - lo
  {
    if lo < hi {
      IntervalSize(s - {hi - 1}, lo, hi - 1);
      assert |s| <= |s - {hi - 1}| + 1;
    } else {
      assert s == {};
    }
  }

  /** USED boxes inject into directory entries. */
  lemma UsedInEntries(s: State)
    requires FilesOk(s.files) && BoxesOk(s)
    ensures |Used(s.boxes)| <= |s.files.dir|
  {
    var f := (k: int) => if 0 <= k < |s.boxes| then FindSlot(s.files.dir, s.boxes[k].name) else 0;
    var used := Used(s.boxes);
    var image := set k | k in used :: f(k);
    forall j, k | j in used && k in used && j != k ensures f(j) != f(k) {
      assert Names(s.files.dir[f(j)], s.boxes[j].name) && Names(s.files.dir[f(k)], s.boxes[k].name);
    }
    ImageSize(used, f);
    IntervalSize(image, 0, |s.files.dir|);
  }

  /** USED boxes inject into the TAKEN inodes other than the root, and leave out a file that is no box's. */
  lemma UsedInInodes(s: State, n: Name)
    requires FilesOk(s.files) && BoxesOk(s)
    requires GetBox(s.boxes, n) == |s.boxes| && Find(s.files.dir, n) != -1
    ensures |Used(s.boxes)| + 1 < |s.files.taken|
  {
    var f := (k: int) => if 0 <= k < |s.boxes| then Find(s.files.dir, s.boxes[k].name) else 0;
    var used := Used(s.boxes);
    var image := set k | k in used :: f(k);
    forall j, k | j in used && k in used && j != k ensures f(j) != f(k) {
      DistinctInodes(s.files, s.boxes[j].name, s.boxes[k].name);
    }
    ImageSize(used, f);
    var extra := Find(s.files.dir, n);
    Referenced(s.files, n);
    forall k | k in used ensures ROOT < f(k) < |s.files.taken| && f(k) != extra {
      Referenced(s.files, s.boxes[k].name);
      DistinctInodes(s.files, s.boxes[k].name, n);
    }
    assert extra !in image;
    IntervalSize(image + {extra}, 1, |s.files.taken|);
  }

  lemma {:induction false} AllUsed(boxes: seq<BoxSlot>)
    requires forall k :: 0 <= k < |boxes| ==> boxes[k].used
    ensures |Used(boxes)| == |boxes|
  {
    if boxes == [] {
      assert Used(boxes) == {};
    } else {
      var front := boxes[..|boxes| - 1];
      AllUsed(front);
      assert Used(boxes) == Used(front) + {|boxes| - 1};
    }
  }

  lemma UsedUpdate(boxes: seq<BoxSlot>, k: nat, b: BoxSlot)
    requires k < |boxes|
    ensures |Used(boxes[k := b])| - |Used(boxes)| == (if b.used then 1 else 0) - (if boxes[k].used then 1 else 0)
  {
    var u, u' := Used(boxes), Used(boxes[k := b]);
    assert u' == if b.used then u + {k} else u - {k};
    assert k in u <==> boxes[k].used;
  }

  /** Slot sufficiency: once the file of a new box is open, a slot is free. */
  lemma SlotSuffices(s: State, n: Name)
    requires Inv(s) && NulFree(n) && GetBox(s.boxes, n) == |s.boxes| && CreateFile(s.files, n).1
    ensures UnusedSlot(s.boxes) < |s.boxes|
  {
    CreateFileKeeps(s.files, n);
    var s' := s.(files := CreateFile(s.files, n).0);
    BoxesSurvive(s, s', n);
    UsedInInodes(s', n);
    if UnusedSlot(s.boxes) == |s.boxes| { AllUsed(s.boxes); }
  }

  /** Boxes keep their files when only a file that is no box's comes or goes. */
  lemma BoxesSurvive(s: State, s': State, n: Name)
    requires BoxesOk(s) && s'.boxes == s.boxes && GetBox(s.boxes, n) == |s.boxes|
    requires forall m :: m != n ==> Find(s'.files.dir, m) == Find(s.files.dir, m)
    ensures BoxesOk(s')
  {
    forall k | 0 <= k < |s.boxes| && s.boxes[k].used ensures Find(s'.files.dir, s.boxes[k].name) != -1 {
      assert s.boxes[k].name != n;
    }
  }

  // ---------------------------------------------------------------- requests

  lemma BoxPlaced(s: State, n: Name, k: nat)
    requires Inv(s) && GetBox(s.boxes, n) == |s.boxes| && Find(s.files.dir, n) != -1
    requires k < |s.boxes| && !s.boxes[k].used
    ensures Inv(s.(boxes := s.boxes[k := NewBox(n)], count := s.count + 1))
  {
    UsedUpdate(s.boxes, k, NewBox(n));
  }

  /**
   A successful create adds exactly one box, for a name that had none, and its file; a failed one changes no
   box and takes no file away.
   */
  lemma CreateBoxKeeps(s: State, n: Name)
    requires Inv(s) && NulFree(n)
    ensures var (s', ok) := CreateBox(s, n);
            && Inv(s')
            && (ok ==> GetBox(s.boxes, n) == |s.boxes|
                       && UnusedSlot(s.boxes) < |s.boxes|
                       && s'.boxes == s.boxes[UnusedSlot(s.boxes) := BoxSlot(true, n, 0, 0, 0)]
                       && Find(s'.files.dir, n) != -1)
            && (!ok ==> s'.boxes == s.boxes && s'.count == s.count)
            && (forall m :: Find(s.files.dir, m) != -1 ==> Find(s'.files.dir, m) == Find(s.files.dir, m))
  {
    if GetBox(s.boxes, n) == |s.boxes| {
      CreateFileKeeps(s.files, n);
      var (fs, ok) := CreateFile(s.files, n);
      BoxesSurvive(s, s.(files := fs), n);
      if ok {
        SlotSuffices(s, n);
        BoxPlaced(s.(files := fs), n, UnusedSlot(s.boxes));
      }
    }
  }

  /** Some inode and some directory entry are free. */
  ghost predicate Room(fs: Files) {
    && (exists i :: 0 <= i < |fs.taken| && !fs.taken[i])
    && (exists k :: 0 <= k < |fs.dir| && fs.dir[k].inum == -1)
  }

  ghost predicate FreeHandle(fs: Files) {
    exists h :: 0 <= h < |fs.open| && !fs.open[h]
  }

  ghost predicate HasBox(boxes: seq<BoxSlot>, n: Name) {
    exists k :: 0 <= k < |boxes| && boxes[k].used && boxes[k].name == n
  }

  lemma GetBoxIff(boxes: seq<BoxSlot>, n: Name)
    ensures GetBox(boxes, n) < |boxes| <==> HasBox(boxes, n)
  {
    var k := GetBox(boxes, n);
    assert k < |boxes| ==> boxes[k].used && boxes[k].name == n;
  }

  lemma CreateFileIff(fs: Files, n: Name)
    requires FilesOk(fs) && NulFree(n)
    ensures var (fs', ok) := CreateFile(fs, n);
            && (ok <==> FreeHandle(fs) && (n in NameMap(fs.dir) || (1 <= |n| <= 39 && Room(fs))))
            && (Find(fs'.dir, n) != -1 <==> n in NameMap(fs.dir) || (1 <= |n| <= 39 && Room(fs)))
  {
    var i, h := FirstFree(fs.taken), FirstFree(fs.open);
    assert i < |fs.taken| ==> !fs.taken[i];
    assert h < |fs.open| ==> !fs.open[h];
    FindIffNamed(fs.dir, n);
    AddIff(fs.dir, n, i);
    if Find(fs.dir, n) == -1 && i < |fs.taken| && Add(fs.dir, n, i).Some? { AddedFinds(fs.dir, n, i); }
  }

  /**
   Creating a box succeeds if and only if no USED box has its name, a handle is free, and its file exists already or
   its name has 1 to 39 bytes and an inode and an entry are free. The file is there afterwards even without a handle.
   */
  lemma CreateBoxIff(s: State, n: Name)
    requires Inv(s) && NulFree(n)
    ensures var (s', ok) := CreateBox(s, n); var fs := s.files;
            && (ok <==>
                  && !HasBox(s.boxes, n) && FreeHandle(fs)
                  && (n in NameMap(fs.dir) || (1 <= |n| <= 39 && Room(fs))))
            && (Find(s'.files.dir, n) != -1 <==>
                  n in NameMap(fs.dir) || (!HasBox(s.boxes, n) && 1 <= |n| <= 39 && Room(fs)))
  {
    GetBoxIff(s.boxes, n);
    FindIffNamed(s.files.dir, n);
    CreateFileIff(s.files, n);
  }

  /**
   Deleting a box that exists always succeeds, frees its slot and its file's inode and touches nothing else;
   the broker never aborts.
   */
  lemma DeleteBoxKeeps(s: State, n: Name)
    requires Inv(s)
    ensures var r := DeleteBox(s, n);
            && r.Reply? && Inv(r.state)
            && (r.ok <==> GetBox(s.boxes, n) < |s.boxes|)
            && (!r.ok ==> r.state == s)
            && (r.ok ==> var k := GetBox(s.boxes, n);
                         r.state.boxes == s.boxes[k := s.boxes[k].(used := false)]
                         && !r.state.files.taken[Find(s.files.dir, n)] && Find(r.state.files.dir, n) == -1)
            && (forall m :: m != n ==> Find(r.state.files.dir, m) == Find(s.files.dir, m))
  {
    var k := GetBox(s.boxes, n);
    if k < |s.boxes| {
      UnlinkFileKeeps(s.files, n);
      var boxes' := s.boxes[k := s.boxes[k].(used := false)];
      UsedUpdate(s.boxes, k, boxes'[k]);
      var s' := DeleteBox(s, n).state;
      forall j | 0 <= j < |boxes'| && boxes'[j].used ensures Find(s'.files.dir, boxes'[j].name) != -1 {
        assert s.boxes[j].used && s.boxes[j].name != n;
      }
    }
  }

  // ---------------------------------------------------------------- runs

  /** Between requests, sessions change sizes, counts and handles but neither names nor allocation. */
  datatype Request = Create(n: Name) | Delete(n: Name) | Sessions(boxes: seq<BoxSlot>, open: seq<bool>)

  predicate SameBoxes(a: seq<BoxSlot>, b: seq<BoxSlot>) {
    |a| == |b| && forall k :: 0 <= k < |a| ==> a[k].used == b[k].used && a[k].name == b[k].name
  }

  function Serve(s: State, r: Request): State {
    match r
    case Create(n) => if NulFree(n) then CreateBox(s, n).0 else s
    case Delete(n) => (match DeleteBox(s, n) case Crash => s case Reply(s', _) => s')
    case Sessions(boxes, open) =>
      if SameBoxes(boxes, s.boxes) && |open| == |s.files.open|
      then s.(boxes := boxes, files := s.files.(open := open))
      else s
  }

  lemma ServeKeeps(s: State, r: Request)
    requires Inv(s)
    ensures Inv(Serve(s, r))
  {
    match r
    case Create(n) => if NulFree(n) { CreateBoxKeeps(s, n); }
    case Delete(n) => DeleteBoxKeeps(s, n);
    case Sessions(boxes, open) =>
      if SameBoxes(boxes, s.boxes) { assert Used(boxes) == Used(s.boxes); }
  }

  ghost function Run(s: State, rs: seq<Request>): (r: State)
    requires Inv(s)
    ensures Inv(r)
    decreases |rs|
  {
    if rs == [] then s
    else
      ServeKeeps(s, rs[0]);
      Run(Serve(s, rs[0]), rs[1..])
  }

  /** A broker just started: no box, no file, as many inodes as slots. */
  ghost predicate Started(s: State) {
    && 0 < |s.files.taken| == |s.boxes| && s.files.taken[ROOT] && s.count == 0
    && (forall i :: ROOT < i < |s.files.taken| ==> !s.files.taken[i])
    && (forall k :: 0 <= k < |s.files.dir| ==> !Occupied(s.files.dir[k]))
    && (forall k :: 0 <= k < |s.boxes| ==> !s.boxes[k].used)
  }

  lemma StartedInv(s: State)
    requires Started(s)
    ensures Inv(s)
  {
    forall i | ROOT < i < |s.files.taken| ensures OneEntry(s.files.dir, s.files.taken, i) {
      assert forall k :: 0 <= k < |s.files.dir| ==> !Occupied(s.files.dir[k]);
      assert Refs(s.files.dir, i) == {};
    }
    assert Used(s.boxes) == {};
  }

  /**
   Slot sufficiency over every run of serialized requests: box_count is the number of USED boxes, at most the
   number of directory entries, and a create whose file could be opened always finds a slot.
   */
  lemma BoxSlotSufficiency(s: State, rs: seq<Request>, n: Name)
    requires Started(s) && NulFree(n)
    ensures Inv(s)
    ensures var r := Run(s, rs);
            && r.count == |Used(r.boxes)| <= |r.files.dir|
            && (GetBox(r.boxes, n) == |r.boxes| && CreateFile(r.files, n).1 ==> UnusedSlot(r.boxes) < |r.boxes|)
            && DeleteBox(r, n).Reply?
  {
    StartedInv(s);
    var r := Run(s, rs);
    UsedInEntries(r);
    DeleteBoxKeeps(r, n);
    if GetBox(r.boxes, n) == |r.boxes| && CreateFile(r.files, n).1 { SlotSuffices(r, n); }
  }

  // ---------------------------------------------------------------- listing

  lemma {:induction false} UsedBoxesCount(boxes: seq<BoxSlot>)
    ensures |UsedBoxes(boxes)| == |Used(boxes)|
  {
    if boxes == [] {
      assert Used(boxes) == {};
    } else {
      var front := boxes[..|boxes| - 1];
      UsedBoxesCount(front);
      var last := |boxes| - 1;
      assert Used(boxes) == Used(front) + if boxes[last].used then {last} else {};
    }
  }

  /** Each USED box is listed at the position given by the number of USED slots before it. */
  lemma {:induction false} ListedInSlotOrder(boxes: seq<BoxSlot>, k: nat)
    requires k < |boxes| && boxes[k].used
    ensures var p := |Used(boxes[..k])|;
            && |Listing(boxes)| == |Used(boxes)| && p < |Listing(boxes)|
            && var r := Listing(boxes)[p];
               && r.name == boxes[k].name && r.size == boxes[k].size
               && r.publishers == boxes[k].publishers && r.subscribers == boxes[k].subscribers
               && (r.last <==> p == |Used(boxes)| - 1)
    decreases |boxes|
  {
    var front := boxes[..|boxes| - 1];
    UsedBoxesCount(boxes);
    UsedBoxesCount(front);
    if k < |front| {
      ListedInSlotOrder(front, k);
      assert front[..k] == boxes[..k];
      var p := |Used(boxes[..k])|;
      assert UsedBoxes(boxes)[p] == UsedBoxes(front)[p];
    } else {
      assert boxes[..k] == front;
    }
  }

  lemma {:induction false} CollectFlagged(pipe: seq<Record>, extra: seq<Record>)
    requires pipe != [] && pipe[|pipe| - 1].last && forall k :: 0 <= k < |pipe| - 1 ==> !pipe[k].last
    ensures Collect(pipe + extra) == (pipe, extra)
  {
    if |pipe| == 1 {
      assert (pipe + extra)[1..] == extra;
    } else {
      CollectFlagged(pipe[1..], extra);
      assert (pipe + extra)[1..] == pipe[1..] + extra;
      assert [pipe[0]] + pipe[1..] == pipe;
    }
  }

  /** Listing round trip: the manager collects exactly the records the broker sent and stops after the last. */
  lemma ListingRoundTrip(boxes: seq<BoxSlot>, extra: seq<Record>)
    ensures Collect(Listing(boxes)) == (Listing(boxes), [])
    ensures UsedBoxes(boxes) != [] ==> Collect(Listing(boxes) + extra) == (Listing(boxes), extra)
  {
    var pipe := Listing(boxes);
    if UsedBoxes(boxes) != [] {
      CollectFlagged(pipe, extra);
      CollectFlagged(pipe, []);
      assert pipe + [] == pipe;
    }
  }
}
