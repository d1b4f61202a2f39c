/** What serving a page fault does, and does not do, to the rest of the memory system. */
module Swapping {
  import opened VmTypes
  import opened PageTable
  import opened Cache
  import opened Runs

  // ---------------------------------------------------------------- frames are conserved

  function Elements(s: seq<nat>): set<nat> {
    set x | x in s
  }

  ghost function HeldFrames(t: Table): set<nat> {
    set i: nat | i < |t.slots| && t.slots[i].Held?
  }

  /** The numbers below `n`. */
  function Below(n: nat): (s: set<nat>)
    ensures forall i: nat :: i in s <==> i < n
    ensures |s| == n
  {
    if n == 0 then {} else Below(n - 1) + {n - 1}
  }

  lemma {:induction false} SizeOfDistinct(s: seq<nat>)
    requires Distinct(s)
    ensures |Elements(s)| == |s|
  {
    if s != [] {
      var init, last := s[..|s| - 1], s[|s| - 1];
      SizeOfDistinct(init);
      assert forall x :: x in s <==> x in init || x == last;
      assert Elements(s) == Elements(init) + {last};
      assert last !in init;
    }
  }

  lemma FreeOrHeld(t: Table, i: nat)
    requires WellFormed(t)
    ensures i < |t.slots| <==> i in HeldFrames(t) || i in Elements(t.free)
    ensures !(i in HeldFrames(t) && i in Elements(t.free))
  {
  }

  /** Valid and free frames together are always all the frames. */
  lemma FramesConserved(t: Table)
    requires WellFormed(t)
    ensures |HeldFrames(t)| + |t.free| == |t.slots|
  {
    SizeOfDistinct(t.free);
    var held, free := HeldFrames(t), Elements(t.free);
    forall i: nat
      ensures i in Below(|t.slots|) <==> i in held || i in free
      ensures !(i in held && i in free)
    {
      FreeOrHeld(t, i);
    }
    hide WellFormed, Below, HeldFrames, Elements;
    assert Below(|t.slots|) == held + free && held !! free;
  }

  // ---------------------------------------------------------------- one page fault

  /** `d` has every page but `p` and `q` where `c` has it, with the same contents. */
  ghost predicate OthersStay(c: Cache, d: Cache, p: PageKey, q: PageKey) {
    && |d.mem| == |c.mem| == |c.table.slots| == |d.table.slots|
    && (forall k, i :: k != p && k != q ==> (HeldAt(d.table, k, i) <==> HeldAt(c.table, k, i)))
    && (forall i :: 0 <= i < |c.table.slots| && c.table.slots[i].Held? && c.table.slots[i].key !in {p, q} ==>
          d.table.slots[i] == c.table.slots[i] && d.mem[i] == c.mem[i])
  }

  lemma LoadIntoFree(c: Cache, key: PageKey)
    requires Valid(c) && !Resident(c.table, key) && key in c.backing && c.table.free != []
    ensures var d := SwapIn(c, key);
      && HeldAt(d.table, key, c.table.free[0]) && d.mem[c.table.free[0]] == c.disk[c.backing[key]]
      && OthersStay(c, d, key, key) && d.disk == c.disk && |d.table.free| == |c.table.free| - 1
  {
    AddWellFormed(c.table, key);
    FrameIs(Add(c.table, key), key, c.table.free[0]);
    hide Valid, WellFormed;
    SlotsStay(c.table, key);
  }

  lemma SlotsStay(t: Table, key: PageKey)
    requires WellFormed(t) && t.free != []
    ensures forall i :: 0 <= i < |t.slots| && t.slots[i].Held? ==> i != t.free[0] && Add(t, key).slots[i] == t.slots[i]
  {
  }

  /** With a free frame, a swap-in takes it, loads the page from the disk, and touches no other page. */
  lemma SwapInWithRoom(c: Cache, key: PageKey)
    requires Valid(c) && !Resident(c.table, key) && key in c.backing && c.table.free != []
    ensures var d := SwapIn(c, key);
      && FrameOf(d.table, key) == c.table.free[0] && d.mem[c.table.free[0]] == c.disk[c.backing[key]]
      && OthersStay(c, d, key, key) && d.disk == c.disk
      && |HeldFrames(d.table)| == |HeldFrames(c.table)| + 1
  {
    hide SwapIn, OthersStay;
    LoadIntoFree(c, key);
    SwapInValid(c, key);
    var d := SwapIn(c, key);
    TableIsWellFormed(c);
    TableIsWellFormed(d);
    FrameIs(d.table, key, c.table.free[0]);
    FramesConserved(c.table);
    FramesConserved(d.table);
    SwapInSizes(c, key);
  }

  lemma TableIsWellFormed(c: Cache)
    requires Valid(c)
    ensures WellFormed(c.table)
  {
  }

  lemma SwapInSizes(c: Cache, key: PageKey)
    requires Valid(c) && !Resident(c.table, key) && key in c.backing
    ensures |SwapIn(c, key).table.slots| == |c.table.slots|
  {
  }

  lemma EvictEffect(c: Cache, v: PageKey)
    requires Valid(c) && Resident(c.table, v)
    ensures var d := Evict(c, v);
      && Valid(d) && !Resident(d.table, v) && d.table.free == c.table.free + [FrameOf(c.table, v)]
      && OthersStay(c, d, v, v) && d.backing == c.backing && |d.disk| == |c.disk|
      && (forall p :: 0 <= p < |c.disk| && p != c.backing[v] ==> d.disk[p] == c.disk[p])
      && (forall k :: Resident(d.table, k) ==> Resident(c.table, k))
  {
    SyncToValid(c, v);
    UnmapValid(SyncTo(c, v), v);
    RemoveWellFormed(c.table, v);
    hide WellFormed;
    var d := Evict(c, v);
    forall i | 0 <= i < |c.table.slots| && c.table.slots[i].Held? && c.table.slots[i].key != v
      ensures d.table.slots[i] == c.table.slots[i]
    {
      assert HeldAt(c.table, c.table.slots[i].key, i);
    }
  }

  /**
   With no free frame, a swap-in evicts exactly the victim, loads the page into its frame from the disk,
   leaves every other page in place, and writes no disk page but the victim's.
   */
  lemma SwapInWithEviction(c: Cache, key: PageKey)
    requires Valid(c) && !Resident(c.table, key) && key in c.backing && c.table.free == []
    ensures var v, d := Victim(c, key), SwapIn(c, key);
      && FrameOf(d.table, key) == FrameOf(c.table, v) && !Resident(d.table, v)
      && d.mem[FrameOf(d.table, key)] == c.disk[c.backing[key]]
      && OthersStay(c, d, key, v)
      && (forall p :: 0 <= p < |c.disk| && p != c.backing[v] ==> d.disk[p] == c.disk[p])
      && |HeldFrames(d.table)| == |HeldFrames(c.table)|
  {
    TableIsWellFormed(c);
    hide SwapIn, Evict, Victim, OthersStay, Valid, WellFormed;
    var v := Victim(c, key);
    EvictEffect(c, v);
    var e := Evict(c, v);
    BackingApart(c, v, key);
    SwapInUnfolds(c, key);
    LoadIntoFree(e, key);
    var d := SwapIn(c, key);
    OthersStayTwice(c, e, SwapIn(e, key), v, key);
    SwapInValid(c, key);
    SwapInSizes(c, key);
    TableIsWellFormed(d);
    KeysUniqueIn(d.table);
    FrameIs(d.table, key, e.table.free[0]);
    FramesConserved(c.table);
    FramesConserved(d.table);
  }

  lemma KeysUniqueIn(t: Table)
    requires WellFormed(t)
    ensures KeysUnique(t)
  {
  }

  /** A swap-in that evicts is the eviction and then a swap-in with room. */
  lemma SwapInUnfolds(c: Cache, key: PageKey)
    requires Valid(c) && !Resident(c.table, key) && key in c.backing && c.table.free == []
    requires Resident(c.table, Victim(c, key)) && Valid(Evict(c, Victim(c, key)))
    requires !Resident(Evict(c, Victim(c, key)).table, key) && Evict(c, Victim(c, key)).table.free != []
    requires Evict(c, Victim(c, key)).backing == c.backing
    ensures SwapIn(c, key) == SwapIn(Evict(c, Victim(c, key)), key)
  {
    hide Valid, WellFormed, Victim, Add, Load;
  }

  lemma BackingApart(c: Cache, v: PageKey, key: PageKey)
    requires Valid(c) && Resident(c.table, v) && key in c.backing && v != key
    ensures v in c.backing && c.backing[v] != c.backing[key] && 0 <= c.backing[key] < |c.disk|
  {
  }

  lemma OthersStayTwice(c: Cache, e: Cache, d: Cache, p: PageKey, q: PageKey)
    requires OthersStay(c, e, p, p) && OthersStay(e, d, q, q)
    ensures OthersStay(c, d, q, p)
  {
    forall i | 0 <= i < |c.table.slots| && c.table.slots[i].Held? && c.table.slots[i].key !in {q, p}
      ensures d.table.slots[i] == c.table.slots[i] && d.mem[i] == c.mem[i]
    {
      assert e.table.slots[i] == c.table.slots[i];
    }
  }

  // ---------------------------------------------------------------- never-written bytes

  /** One frame still holding 7 from an earlier page, one disk page holding 0. */
  ghost function StaleFrame(): Cache {
    Cache(1, Table([Vacant], [0]), [[7]], map[], [[0]], [true], Stats(0, 9, 0, 0, 0, 0))
  }

  /** A fresh page shows what its frame held before, until it is evicted and loaded back as the disk has it. */
  lemma FreshPageChanges(key: PageKey)
    ensures var c := StaleFrame();
      && Valid(c) && Legal(c, Alloc(key, 0))
      && var d := Step(c, Alloc(key, 0)).0;
      && Valid(d) && Resident(d.table, key)
      && BytesOf(d, key, 0, 1) == [7] && BytesOf(Cycle(d, key), key, 0, 1) != [7]
  {
    var c := StaleFrame();
    StaleIsValid();
    AllocValid(c, key, 0);
    var d := AllocPage(c, key, 0);
    assert HeldAt(d.table, key, 0);
    FrameIs(d.table, key, 0);
    hide Valid, WellFormed, Cycle, Resident;
    CycleKeepsPage(d, key);
    var f := Cycle(d, key);
    FrameHasBytes(f, key);
    assert f.mem[FrameOf(f.table, key)] != [7];
  }

  lemma StaleIsValid()
    ensures Valid(StaleFrame())
  {
    var t := StaleFrame().table;
    assert 0 in t.free by { assert t.free[0] == 0; }
  }

  lemma FrameHasBytes(c: Cache, key: PageKey)
    requires Valid(c) && Resident(c.table, key) && c.pageSize == 1
    ensures 0 <= FrameOf(c.table, key) < |c.mem| && |c.mem[FrameOf(c.table, key)]| == 1
  {
  }
}
