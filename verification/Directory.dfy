/**
 The root directory: a vector of slots filled first-fit (fs/state.c:367-472, fs2/state.c:297-400).
 A slot is free when its inumber is -1; the name bytes of a slot that was never used are arbitrary.
 */
module Directory {
  import opened Bytes

  const MAX_FILE_NAME: nat := 40
  const DIR_ENTRY_SIZE: nat := 44

  /** The root directory's inumber. */
  const ROOT: nat := 0

  type Name = seq<byte>

  datatype Slot = Slot(name: seq<byte>, inum: int)

  predicate Occupied(e: Slot) {
    e.inum != -1
  }

  /** What `strncpy` and the final terminator leave in `d_name`. */
  function Padded(n: Name): (r: seq<byte>)
    requires |n| < MAX_FILE_NAME
    ensures |r| == MAX_FILE_NAME
    ensures NulFree(n) ==> CStr(r) == n
  {
    assert n + Zeros(MAX_FILE_NAME - |n|) == n + [0] + Zeros(MAX_FILE_NAME - |n| - 1);
    if NulFree(n) then
      CStrOfTerminated(n, Zeros(MAX_FILE_NAME - |n| - 1));
      n + Zeros(MAX_FILE_NAME - |n|)
    else
      n + Zeros(MAX_FILE_NAME - |n|)
  }

  /** The slot that `find_in_dir` stops at: occupied and carrying this name. */
  predicate Names(e: Slot, n: Name) {
    Occupied(e) && CStr(e.name) == n
  }

  function FindSlot(d: seq<Slot>, n: Name, i: nat := 0): (k: nat)
    requires i <= |d|
    ensures i <= k <= |d|
    ensures forall j :: i <= j < k ==> !Names(d[j], n)
    ensures k < |d| ==> Names(d[k], n)
    decreases |d| - i
  {
    if i == |d| || Names(d[i], n) then i else FindSlot(d, n, i + 1)
  }

  /** The slot that `clear_dir_entry` stops at: it compares names and ignores the inumber. */
  function MatchSlot(d: seq<Slot>, n: Name, i: nat := 0): (k: nat)
    requires i <= |d|
    ensures i <= k <= |d|
    ensures forall j :: i <= j < k ==> CStr(d[j].name) != n
    ensures k < |d| ==> CStr(d[k].name) == n
    decreases |d| - i
  {
    if i == |d| || CStr(d[i].name) == n then i else MatchSlot(d, n, i + 1)
  }

  /** The slot that `add_dir_entry` fills. */
  function FreeSlot(d: seq<Slot>, i: nat := 0): (k: nat)
    requires i <= |d|
    ensures i <= k <= |d|
    ensures forall j :: i <= j < k ==> Occupied(d[j])
    ensures k < |d| ==> !Occupied(d[k])
    decreases |d| - i
  {
    if i == |d| || !Occupied(d[i]) then i else FreeSlot(d, i + 1)
  }

  function Find(d: seq<Slot>, n: Name): int {
    var k := FindSlot(d, n);
    if k == |d| then -1 else d[k].inum
  }

  predicate GoodName(n: Name) {
    0 < |n| < MAX_FILE_NAME
  }

  function Add(d: seq<Slot>, n: Name, inum: int): Option<seq<Slot>> {
    if !GoodName(n) then None
    else
      var k := FreeSlot(d);
      if k == |d| then None else Some(d[k := Slot(Padded(n), inum)])
  }

  function Clear(d: seq<Slot>, n: Name): Option<seq<Slot>> {
    var k := MatchSlot(d, n);
    if k == |d| then None else Some(d[k := Slot(Zeros(MAX_FILE_NAME), -1)])
  }

  // ---------------------------------------------------------------- invariant

  /** Occupied slots have proper, distinct names; no stale name sits before an occupied slot. */
  ghost predicate DirInv(d: seq<Slot>) {
    && (forall k :: 0 <= k < |d| && Occupied(d[k]) ==> d[k].inum >= 0 && GoodName(CStr(d[k].name)))
    && (forall j, k :: 0 <= j < k < |d| && Occupied(d[j]) && Occupied(d[k]) ==> CStr(d[j].name) != CStr(d[k].name))
    && (forall j, k :: 0 <= j < k < |d| && !Occupied(d[j]) && Occupied(d[k]) ==> CStr(d[j].name) == [])
  }

  /** The slots that name an inumber. */
  ghost function Refs(d: seq<Slot>, inum: int): set<int> {
    set k | 0 <= k < |d| && d[k].inum == inum
  }

  ghost function LinkCount(d: seq<Slot>, inum: int): nat {
    |Refs(d, inum)|
  }

  /** The directory as a finite map. */
  ghost function NameMap(d: seq<Slot>): map<Name, int> {
    map n | n in (set k | 0 <= k < |d| && Occupied(d[k]) :: CStr(d[k].name)) :: Find(d, n)
  }

  lemma FindIffNamed(d: seq<Slot>, n: Name)
    requires DirInv(d)
    ensures n in NameMap(d) <==> Find(d, n) != -1
    ensures n in NameMap(d) ==> NameMap(d)[n] == Find(d, n) >= 0 && GoodName(n) && NulFree(n)
  {
    var k := FindSlot(d, n);
    if k < |d| {
      assert Occupied(d[k]) && CStr(d[k].name) == n;
    }
  }

  /** With distinct names the slot that carries a name is the one the scan finds. */
  lemma FindUnique(d: seq<Slot>, k: nat)
    requires DirInv(d) && k < |d| && Occupied(d[k])
    ensures FindSlot(d, CStr(d[k].name)) == k
    ensures Find(d, CStr(d[k].name)) == d[k].inum
  {
    var j := FindSlot(d, CStr(d[k].name));
    assert Names(d[k], CStr(d[k].name));
    assert j <= k && Names(d[j], CStr(d[k].name));
  }

  /**
   Slot agreement: although the clearing scan ignores inumbers and never-used slots hold arbitrary
   name bytes, it stops at the very slot that the lookup found.
   */
  lemma SlotAgreement(d: seq<Slot>, n: Name)
    requires DirInv(d) && n != [] && FindSlot(d, n) < |d|
    ensures MatchSlot(d, n) == FindSlot(d, n)
  {
    var k := FindSlot(d, n);
    forall j | 0 <= j < k ensures CStr(d[j].name) != n {
      assert !Names(d[j], n);
      if !Occupied(d[j]) {
        assert Occupied(d[k]);
      }
    }
    assert CStr(d[k].name) == n;
  }

  lemma RefsUpdate(d: seq<Slot>, k: nat, e: Slot, inum: int)
    requires k < |d|
    ensures Refs(d[k := e], inum) == if e.inum == inum then Refs(d, inum) + {k} else Refs(d, inum) - {k}
  {
  }

  /** An entry can be added exactly for a name of 1 to 39 bytes, while some slot is free. */
  lemma AddIff(d: seq<Slot>, n: Name, inum: int)
    ensures Add(d, n, inum).Some? <==> 1 <= |n| <= 39 && exists k :: 0 <= k < |d| && d[k].inum == -1
  {
    var k := FreeSlot(d);
    assert k < |d| ==> d[k].inum == -1;
  }

  /** Replacing a slot moves one reference. */
  lemma CountUpdate(d: seq<Slot>, k: nat, e: Slot, inum: int)
    requires k < |d|
    ensures LinkCount(d[k := e], inum) ==
            LinkCount(d, inum) - (if d[k].inum == inum then 1 else 0) + (if e.inum == inum then 1 else 0)
  {
    RefsUpdate(d, k, e, inum);
    assert k in Refs(d, inum) <==> d[k].inum == inum;
  }

  /** A directory's map is fixed by what each lookup returns. */
  lemma MapByFind(d: seq<Slot>, m: map<Name, int>)
    requires DirInv(d)
    requires forall n :: n in m ==> m[n] != -1
    requires forall n :: Find(d, n) == if n in m then m[n] else -1
    ensures NameMap(d) == m
  {
    forall n ensures n in NameMap(d) <==> n in m {
      FindIffNamed(d, n);
      assert Find(d, n) == if n in m then m[n] else -1;
    }
    forall n | n in m ensures NameMap(d)[n] == m[n] {
      FindIffNamed(d, n);
    }
  }

  /** Lookups after one slot has changed, for a name that neither the old nor the new slot carries. */
  lemma FindOther(d: seq<Slot>, k: nat, e: Slot, n: Name)
    requires DirInv(d) && k < |d| && DirInv(d[k := e]) && !Names(d[k], n) && !Names(e, n)
    ensures Find(d[k := e], n) == Find(d, n)
  {
    var d' := d[k := e];
    var j := FindSlot(d, n);
    if j < |d| {
      assert d'[j] == d[j];
      FindUnique(d', j);
    } else {
      forall i | 0 <= i < |d'| ensures !Names(d'[i], n) {
      }
    }
  }

  lemma AddInv(d: seq<Slot>, n: Name, inum: int)
    requires DirInv(d) && NulFree(n) && Find(d, n) == -1 && inum >= 0 && Add(d, n, inum).Some?
    ensures DirInv(Add(d, n, inum).value)
  {
    forall j | 0 <= j < |d| && Occupied(d[j]) ensures CStr(d[j].name) != n {
      FindUnique(d, j);
    }
  }

  /** Adding a new name keeps the invariant, extends the map and counts one more reference. */
  lemma AddEffect(d: seq<Slot>, n: Name, inum: int)
    requires DirInv(d) && NulFree(n) && Find(d, n) == -1 && inum >= 0 && Add(d, n, inum).Some?
    ensures var d' := Add(d, n, inum).value;
            && DirInv(d')
            && NameMap(d') == NameMap(d)[n := inum]
            && forall i :: i >= 0 ==> LinkCount(d', i) == LinkCount(d, i) + (if i == inum then 1 else 0)
  {
    AddInv(d, n, inum);
    var k := FreeSlot(d);
    var e := Slot(Padded(n), inum);
    var d' := Add(d, n, inum).value;
    var m := NameMap(d)[n := inum];
    forall x ensures Find(d', x) == if x in m then m[x] else -1 {
      FindIffNamed(d, x);
      if x == n { FindUnique(d', k); } else { FindOther(d, k, e, x); }
    }
    forall x | x in m ensures m[x] != -1 {
      FindIffNamed(d, x);
    }
    MapByFind(d', m);
    forall i | i >= 0 ensures LinkCount(d', i) == LinkCount(d, i) + (if i == inum then 1 else 0) {
      CountUpdate(d, k, e, i);
    }
  }

  /** Clearing the name a lookup found keeps the invariant, drops the name and one reference. */
  lemma ClearEffect(d: seq<Slot>, n: Name)
    requires DirInv(d) && n != [] && Find(d, n) != -1
    ensures Clear(d, n).Some?
    ensures var d' := Clear(d, n).value;
            && DirInv(d')
            && NameMap(d') == NameMap(d) - {n}
            && forall i :: i >= 0 ==> LinkCount(d', i) == LinkCount(d, i) - (if i == Find(d, n) then 1 else 0)
  {
    SlotAgreement(d, n);
    var k := FindSlot(d, n);
    var e := Slot(Zeros(MAX_FILE_NAME), -1);
    assert CStr(e.name) == [];
    var d' := Clear(d, n).value;
    var m := NameMap(d) - {n};
    forall x ensures Find(d', x) == if x in m then m[x] else -1 {
      FindIffNamed(d, x);
      if x == n { ClearedGone(d, n); } else { FindOther(d, k, e, x); }
    }
    forall x | x in m ensures m[x] != -1 {
      FindIffNamed(d, x);
    }
    MapByFind(d', m);
    forall i | i >= 0 ensures LinkCount(d', i) == LinkCount(d, i) - (if i == Find(d, n) then 1 else 0) {
      CountUpdate(d, k, e, i);
    }
  }

  lemma ClearedGone(d: seq<Slot>, n: Name)
    requires DirInv(d) && n != [] && FindSlot(d, n) < |d|
    ensures Find(d[FindSlot(d, n) := Slot(Zeros(MAX_FILE_NAME), -1)], n) == -1
  {
    var k := FindSlot(d, n);
    var d' := d[k := Slot(Zeros(MAX_FILE_NAME), -1)];
    forall j | 0 <= j < |d'| ensures !Names(d'[j], n) {
      if j != k && Occupied(d[j]) { FindUnique(d, j); }
    }
  }
}
