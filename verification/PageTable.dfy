/**
 The inverted page table seen without its hash chains: one slot per memory frame and the
 queue of free frames. The chained structure of vmsim/ipt.c is proved to refine it in Ipt.dfy.
 */
module PageTable {
  import opened VmTypes

  /** The age a page gets when it is mapped: the top bit alone. */
  const TOP_BIT: Word := 0x8000_0000

  datatype Slot =
    | Vacant
    | Held(key: PageKey, dirty: bool, referenced: bool, age: Word)

  datatype Table = Table(slots: seq<Slot>, free: seq<nat>)

  predicate HeldAt(t: Table, key: PageKey, i: int) {
    0 <= i < |t.slots| && t.slots[i].Held? && t.slots[i].key == key
  }

  ghost predicate Resident(t: Table, key: PageKey) {
    exists i :: HeldAt(t, key, i)
  }

  ghost predicate Distinct(s: seq<nat>) {
    forall i, j :: 0 <= i < j < |s| ==> s[i] != s[j]
  }

  ghost predicate KeysUnique(t: Table) {
    forall i, j :: 0 <= i < |t.slots| && 0 <= j < |t.slots| && t.slots[i].Held? && t.slots[j].Held? && i != j
      ==> t.slots[i].key != t.slots[j].key
  }

  ghost predicate FreeExact(t: Table) {
    && Distinct(t.free)
    && (forall k :: 0 <= k < |t.free| ==> t.free[k] < |t.slots| && t.slots[t.free[k]].Vacant?)
    && (forall i :: 0 <= i < |t.slots| && t.slots[i].Vacant? ==> i in t.free)
  }

  /** No page is in two frames, and the queue lists exactly the vacant frames, once each. */
  ghost predicate WellFormed(t: Table) {
    |t.slots| > 0 && KeysUnique(t) && FreeExact(t)
  }

  /** The frame a page is in, or -1. */
  ghost function FrameOf(t: Table, key: PageKey): (f: int)
    ensures Resident(t, key) ==> HeldAt(t, key, f)
    ensures !Resident(t, key) ==> f == -1
  {
    if Resident(t, key) then var i :| HeldAt(t, key, i); i else -1
  }

  lemma FrameIs(t: Table, key: PageKey, i: int)
    requires KeysUnique(t) && HeldAt(t, key, i)
    ensures Resident(t, key) && FrameOf(t, key) == i
  {
  }

  // ---------------------------------------------------------------- operations

  ghost function Add(t: Table, key: PageKey): Table
    requires t.free != [] && t.free[0] < |t.slots|
  {
    Table(t.slots[t.free[0] := Held(key, false, false, TOP_BIT)], t.free[1..])
  }

  ghost function Remove(t: Table, key: PageKey): Table {
    if Resident(t, key)
    then Table(t.slots[FrameOf(t, key) := Vacant], t.free + [FrameOf(t, key)])
    else t
  }

  /** Mark a resident page as referenced, and as dirty when the reference is a write. */
  function Touched(s: Slot, write: bool): Slot
    requires s.Held?
  {
    s.(referenced := true, dirty := s.dirty || write)
  }

  ghost function Reference(t: Table, key: PageKey, write: bool): Table
    requires Resident(t, key)
  {
    t.(slots := t.slots[FrameOf(t, key) := Touched(t.slots[FrameOf(t, key)], write)])
  }

  /** Shift the age right by one and let the reference bit in at the top. */
  function AgeStep(age: Word, referenced: bool): Word {
    age / 2 + (if referenced then TOP_BIT else 0)
  }

  function Aged(s: Slot): Slot {
    if s.Held? then s.(age := AgeStep(s.age, s.referenced), referenced := false) else s
  }

  function AgeAll(t: Table): Table {
    t.(slots := seq(|t.slots|, i requires 0 <= i < |t.slots| => Aged(t.slots[i])))
  }

  // ---------------------------------------------------------------- the partial map

  ghost function Keys(t: Table): set<PageKey> {
    set i | 0 <= i < |t.slots| && t.slots[i].Held? :: t.slots[i].key
  }

  /** The table as a partial map from pages to frames. */
  ghost function Bindings(t: Table): map<PageKey, int> {
    map key | key in Keys(t) :: FrameOf(t, key)
  }

  lemma KeysAreResident(t: Table)
    ensures forall key :: key in Keys(t) <==> Resident(t, key)
  {
    forall key ensures key in Keys(t) <==> Resident(t, key) {
      if key in Keys(t) {
        var i :| 0 <= i < |t.slots| && t.slots[i].Held? && t.slots[i].key == key;
        assert HeldAt(t, key, i);
      }
      if Resident(t, key) {
        var i :| HeldAt(t, key, i);
      }
    }
  }

  lemma BindingsAt(t: Table, key: PageKey)
    requires WellFormed(t)
    ensures key in Bindings(t) <==> Resident(t, key)
    ensures key in Bindings(t) ==> Bindings(t)[key] == FrameOf(t, key)
  {
    KeysAreResident(t);
  }

  /** No frame is bound to two pages. */
  lemma BindingsInjective(t: Table, k1: PageKey, k2: PageKey)
    requires WellFormed(t)
    requires k1 in Bindings(t) && k2 in Bindings(t)
    ensures 0 <= Bindings(t)[k1] < |t.slots|
    ensures k1 != k2 ==> Bindings(t)[k1] != Bindings(t)[k2]
  {
    KeysAreResident(t);
  }

  lemma AddWellFormed(t: Table, key: PageKey)
    requires WellFormed(t) && !Resident(t, key) && t.free != []
    ensures WellFormed(Add(t, key))
    ensures HeldAt(Add(t, key), key, t.free[0])
    ensures forall k, i :: k != key ==> (HeldAt(Add(t, key), k, i) <==> HeldAt(t, k, i))
    ensures forall k :: Resident(Add(t, key), k) <==> k == key || Resident(t, k)
  {
    var f := t.free[0];
    var t' := Add(t, key);
    assert HeldAt(t', key, f);
    assert forall k, i :: k != key ==> (HeldAt(t', k, i) <==> HeldAt(t, k, i));
    assert forall i :: 0 <= i < |t.slots| && t.slots[i].Held? ==> HeldAt(t, t.slots[i].key, i);
    forall i | 0 <= i < |t'.slots| && t'.slots[i].Vacant? ensures i in t'.free {
      assert i in t.free;
    }
    forall k ensures Resident(t', k) <==> k == key || Resident(t, k) {
      if Resident(t, k) { var i :| HeldAt(t, k, i); assert HeldAt(t', k, i); }
    }
  }

  /** Adding an absent page binds it to the frame that has been free longest and changes nothing else. */
  lemma AddBinds(t: Table, key: PageKey)
    requires WellFormed(t) && !Resident(t, key) && t.free != []
    ensures Bindings(Add(t, key)) == Bindings(t)[key := t.free[0]]
  {
    var t' := Add(t, key);
    AddWellFormed(t, key);
    KeysAreResident(t);
    KeysAreResident(t');
    forall k | k in Bindings(t') ensures Bindings(t')[k] == Bindings(t)[key := t.free[0]][k] {
      assert HeldAt(t', k, FrameOf(t', k));
      if k != key { assert HeldAt(t, k, FrameOf(t, k)); }
    }
  }

  lemma RemoveWellFormed(t: Table, key: PageKey)
    requires WellFormed(t)
    ensures WellFormed(Remove(t, key))
    ensures forall k, i :: HeldAt(Remove(t, key), k, i) <==> k != key && HeldAt(t, k, i)
    ensures forall k :: Resident(Remove(t, key), k) <==> k != key && Resident(t, k)
  {
    if Resident(t, key) {
      var f := FrameOf(t, key);
      var t' := Remove(t, key);
      assert forall k, i :: HeldAt(t', k, i) <==> k != key && HeldAt(t, k, i);
      assert t'.free[|t.free|] == f;
      forall i | 0 <= i < |t'.slots| && t'.slots[i].Vacant? ensures i in t'.free {
        if i != f { assert i in t.free; }
      }
      forall k ensures Resident(t', k) <==> k != key && Resident(t, k) {
        if k != key && Resident(t, k) { var i :| HeldAt(t, k, i); assert HeldAt(t', k, i); }
      }
    }
  }

  /** Removing a page deletes exactly its binding and queues its frame last. */
  lemma RemoveUnbinds(t: Table, key: PageKey)
    requires WellFormed(t)
    ensures Bindings(Remove(t, key)) == Bindings(t) - {key}
    ensures Resident(t, key) ==> Remove(t, key).free == t.free + [FrameOf(t, key)]
  {
    var t' := Remove(t, key);
    RemoveWellFormed(t, key);
    KeysAreResident(t);
    KeysAreResident(t');
    forall k | k in Bindings(t') ensures Bindings(t')[k] == Bindings(t)[k] {
      assert HeldAt(t', k, FrameOf(t', k));
      assert HeldAt(t, k, FrameOf(t, k));
    }
  }

  /** Two tables that hold the same pages in the same frames and have the same free queue. */
  ghost predicate SameBindings(t: Table, u: Table) {
    && |t.slots| == |u.slots| && t.free == u.free
    && forall i :: 0 <= i < |t.slots| ==>
         t.slots[i].Held? == u.slots[i].Held? && (t.slots[i].Held? ==> t.slots[i].key == u.slots[i].key)
  }

  lemma SameBindingsKeep(t: Table, u: Table)
    requires WellFormed(t) && SameBindings(t, u)
    ensures WellFormed(u)
    ensures forall k, i :: HeldAt(t, k, i) <==> HeldAt(u, k, i)
    ensures forall k :: Resident(t, k) <==> Resident(u, k)
    ensures forall k :: FrameOf(t, k) == FrameOf(u, k)
  {
    forall k ensures Resident(t, k) <==> Resident(u, k) {
      if Resident(t, k) { assert HeldAt(u, k, FrameOf(t, k)); }
      if Resident(u, k) { assert HeldAt(t, k, FrameOf(u, k)); }
    }
    forall i | 0 <= i < |u.slots| && u.slots[i].Vacant? ensures i in u.free {
      assert t.slots[i].Vacant?;
    }
  }

  // ---------------------------------------------------------------- the victim

  predicate Eligible(s: Slot, target: PageKey) {
    s.Held? && s.key != target
  }

  /** Slot `r` has the least age among the eligible slots below `n`, and is the first that does. */
  ghost predicate FirstOldest(slots: seq<Slot>, target: PageKey, n: nat, r: int)
    requires n <= |slots|
  {
    && 0 <= r < n && Eligible(slots[r], target)
    && (forall i :: 0 <= i < n && Eligible(slots[i], target) ==> slots[r].age <= slots[i].age)
    && (forall i :: 0 <= i < r && Eligible(slots[i], target) ==> slots[r].age < slots[i].age)
  }

  /** The fold of get_oldest_page over the first `n` frames; -1 while nothing was eligible. */
  function Oldest(slots: seq<Slot>, target: PageKey, n: nat): (r: int)
    requires n <= |slots|
    ensures r == -1 ==> forall i :: 0 <= i < n ==> !Eligible(slots[i], target)
    ensures r != -1 ==> FirstOldest(slots, target, n, r)
  {
    if n == 0 then -1
    else
      var r := Oldest(slots, target, n - 1);
      if Eligible(slots[n - 1], target) && (r == -1 || slots[n - 1].age < slots[r].age) then n - 1 else r
  }

  /** With every frame in use and the target elsewhere, the fold does find a victim. */
  lemma VictimExists(t: Table, target: PageKey)
    requires WellFormed(t) && t.free == [] && !Resident(t, target)
    ensures FirstOldest(t.slots, target, |t.slots|, Oldest(t.slots, target, |t.slots|))
  {
    assert t.slots[0].Vacant? ==> 0 in t.free;
    assert t.slots[0].Held? ==> HeldAt(t, t.slots[0].key, 0);
    assert Eligible(t.slots[0], target);
  }
}
