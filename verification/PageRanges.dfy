/**
 Allocating and freeing the consecutive pages of a process (vmsim/mmu.c:115-161), and undoing the one by the other.
 */
module PageRanges {
  import opened VmTypes
  import opened PageTable
  import opened Cache

  /**
   Pages `page..page + n` of a process are not allocated, and the disk pages meant for them are used and free to
   take.
   */
  ghost predicate RangeFree(c: Cache, pid: nat, page: nat, n: nat, diskPage: nat) {
    && (forall i :: page <= i < page + n ==> PageKey(pid, i) !in c.backing)
    && diskPage + n <= |c.used|
    && (forall d :: diskPage <= d < diskPage + n ==> c.used[d] && d !in c.backing.Values)
  }

  /** The keys `page..page + n` of a process, bound to consecutive disk pages. */
  function BindRange(backing: map<PageKey, int>, pid: nat, page: nat, n: nat, diskPage: nat): (b: map<PageKey, int>)
    ensures forall k :: k in b <==> k in backing || (k.pid == pid && page <= k.page < page + n)
    ensures forall k :: k in b ==>
      b[k] == if k.pid == pid && page <= k.page < page + n then diskPage + (k.page - page) else backing[k]
  {
    if n == 0 then backing
    else BindRange(backing, pid, page, n - 1, diskPage)[PageKey(pid, page + n - 1) := diskPage + n - 1]
  }

  function UnbindRange(backing: map<PageKey, int>, pid: nat, page: nat, n: nat): (b: map<PageKey, int>)
    ensures forall k :: k in b <==> k in backing && !(k.pid == pid && page <= k.page < page + n)
    ensures forall k :: k in b ==> b[k] == backing[k]
  {
    if n == 0 then backing else UnbindRange(backing, pid, page, n - 1) - {PageKey(pid, page + n - 1)}
  }

  ghost function AllocRange(c: Cache, pid: nat, page: nat, n: nat, diskPage: nat): (d: Cache)
    requires Valid(c) && RangeFree(c, pid, page, n, diskPage)
    ensures Valid(d) && d.backing == BindRange(c.backing, pid, page, n, diskPage) && d.used == c.used
  {
    if n == 0 then c
    else
      NextPage(c, AllocRange(c, pid, page, n - 1, diskPage), pid, page, n, diskPage);
      AllocPage(AllocRange(c, pid, page, n - 1, diskPage), PageKey(pid, page + n - 1), diskPage + n - 1)
  }

  lemma NextPage(c: Cache, e: Cache, pid: nat, page: nat, n: nat, diskPage: nat)
    requires RangeFree(c, pid, page, n, diskPage) && n > 0 && Valid(e)
    requires e.backing == BindRange(c.backing, pid, page, n - 1, diskPage) && e.used == c.used
    ensures PageKey(pid, page + n - 1) !in e.backing && diskPage + n - 1 !in e.backing.Values
    ensures WellFormed(e.table) && !Resident(e.table, PageKey(pid, page + n - 1))
    ensures Valid(AllocPage(e, PageKey(pid, page + n - 1), diskPage + n - 1))
    ensures AllocPage(e, PageKey(pid, page + n - 1), diskPage + n - 1).backing ==
      BindRange(c.backing, pid, page, n, diskPage)
    ensures AllocPage(e, PageKey(pid, page + n - 1), diskPage + n - 1).used == c.used
  {
    hide Valid, WellFormed, Resident, Add;
    NextDiskPageFree(c, e, pid, page, n, diskPage);
    RangeShrinks(c, pid, page, n, diskPage);
    hide RangeFree;
    TableOf(e);
    AllocValid(e, PageKey(pid, page + n - 1), diskPage + n - 1);
  }

  lemma AllocRangeStep(c: Cache, pid: nat, page: nat, n: nat, diskPage: nat)
    requires Valid(c) && RangeFree(c, pid, page, n + 1, diskPage) && RangeFree(c, pid, page, n, diskPage)
    ensures AllocRange(c, pid, page, 0, diskPage) == c
    ensures var e := AllocRange(c, pid, page, n, diskPage);
      && Valid(e) && WellFormed(e.table) && !Resident(e.table, PageKey(pid, page + n))
      && PageKey(pid, page + n) !in e.backing && diskPage + n !in e.backing.Values
      && diskPage + n < |e.used| && e.used[diskPage + n]
      && AllocRange(c, pid, page, n + 1, diskPage) == AllocPage(e, PageKey(pid, page + n), diskPage + n)
  {
    hide Valid, AllocPage;
    NextPage(c, AllocRange(c, pid, page, n, diskPage), pid, page, n + 1, diskPage);
    RangeShrinks(c, pid, page, n + 1, diskPage);
  }

  lemma {:induction false} AllocRangeFrame(c: Cache, pid: nat, page: nat, n: nat, diskPage: nat)
    requires Valid(c) && RangeFree(c, pid, page, n, diskPage)
    ensures var d := AllocRange(c, pid, page, n, diskPage);
      d.disk == c.disk && d.mem == c.mem && d.stats == c.stats && d.pageSize == c.pageSize
  {
    hide Valid, BindRange;
    if n > 0 { AllocRangeFrame(c, pid, page, n - 1, diskPage); }
  }

  lemma NextDiskPageFree(c: Cache, e: Cache, pid: nat, page: nat, n: nat, diskPage: nat)
    requires RangeFree(c, pid, page, n, diskPage) && n > 0
    requires e.backing == BindRange(c.backing, pid, page, n - 1, diskPage)
    ensures PageKey(pid, page + n - 1) !in e.backing && diskPage + n - 1 !in e.backing.Values
  {
    forall k | k in e.backing ensures e.backing[k] != diskPage + n - 1 {
      if k in c.backing { assert c.backing[k] in c.backing.Values; }
    }
  }

  ghost function FreeRange(c: Cache, pid: nat, page: nat, n: nat): (d: Cache)
    requires Valid(c)
    ensures Valid(d) && d.backing == UnbindRange(c.backing, pid, page, n)
    ensures d.disk == c.disk && d.used == c.used && d.mem == c.mem && d.stats == c.stats && d.pageSize == c.pageSize
  {
    if n == 0 then c
    else
      FreeValid(FreeRange(c, pid, page, n - 1), PageKey(pid, page + n - 1));
      FreePage(FreeRange(c, pid, page, n - 1), PageKey(pid, page + n - 1))
  }

  // ---------------------------------------------------------------- coherence

  function AllocFlat(w: Flat, pid: nat, page: nat, n: nat): Flat {
    if n == 0 then w else AllocFlat(w, pid, page, n - 1)[PageKey(pid, page + n - 1) := map[]]
  }

  lemma RangeShrinks(c: Cache, pid: nat, page: nat, n: nat, diskPage: nat)
    requires RangeFree(c, pid, page, n, diskPage) && n > 0
    ensures RangeFree(c, pid, page, n - 1, diskPage)
    ensures diskPage + n - 1 < |c.used| && c.used[diskPage + n - 1]
  {
  }

  lemma {:induction false} AllocRangeCoherent(c: Cache, w: Flat, pid: nat, page: nat, n: nat, diskPage: nat)
    requires Valid(c) && Coherent(c, w, None) && RangeFree(c, pid, page, n, diskPage)
    ensures Coherent(AllocRange(c, pid, page, n, diskPage), AllocFlat(w, pid, page, n), None)
  {
    hide Valid, Coherent, AllocPage, BindRange, RangeFree;
    if n > 0 {
      RangeShrinks(c, pid, page, n, diskPage);
      AllocRangeCoherent(c, w, pid, page, n - 1, diskPage);
      var e := AllocRange(c, pid, page, n - 1, diskPage);
      NextPage(c, e, pid, page, n, diskPage);
      AllocCoherent(e, AllocFlat(w, pid, page, n - 1), PageKey(pid, page + n - 1), diskPage + n - 1);
    }
  }

  function FreeFlat(w: Flat, pid: nat, page: nat, n: nat): Flat {
    if n == 0 then w else FreeFlat(w, pid, page, n - 1) - {PageKey(pid, page + n - 1)}
  }

  lemma {:induction false} FreeRangeCoherent(c: Cache, w: Flat, pid: nat, page: nat, n: nat)
    requires Valid(c) && Coherent(c, w, None) && forall i :: page <= i < page + n ==> PageKey(pid, i) in c.backing
    ensures Coherent(FreeRange(c, pid, page, n), FreeFlat(w, pid, page, n), None)
  {
    hide Valid, Coherent, FreePage;
    if n > 0 {
      FreeRangeCoherent(c, w, pid, page, n - 1);
      FreeCoherent(FreeRange(c, pid, page, n - 1), FreeFlat(w, pid, page, n - 1), PageKey(pid, page + n - 1));
    }
  }

  // ---------------------------------------------------------------- the round trip

  /**
   The table part of the way: of the frames `t0.free[..hi]` taken for pages page, page + 1, ... those below
   `lo` have been vacated and queued again.
   */
  ghost predicate Midway(t0: Table, t: Table, pid: nat, page: nat, lo: nat, hi: nat) {
    && lo <= hi <= |t0.free| && |t.slots| == |t0.slots|
    && (forall j :: 0 <= j < |t0.free| ==> t0.free[j] < |t.slots|)
    && (forall j :: lo <= j < hi ==> t.slots[t0.free[j]] == Held(PageKey(pid, page + j), false, false, TOP_BIT))
    && (forall j :: 0 <= j < |t0.free| && !(lo <= j < hi) ==> t.slots[t0.free[j]] == Vacant)
    && (forall i :: 0 <= i < |t.slots| && i !in t0.free ==> t.slots[i] == t0.slots[i])
    && t.free == t0.free[hi..] + t0.free[..lo]
  }

  lemma {:induction false} AllocMidway(c: Cache, pid: nat, page: nat, n: nat, diskPage: nat)
    requires Valid(c) && RangeFree(c, pid, page, n, diskPage)
    ensures Midway(c.table, AllocRange(c, pid, page, n, diskPage).table, pid, page, 0, Min(n, |c.table.free|))
  {
    hide Valid, RangeFree, BindRange, Add, AllocRange, AllocPage, WellFormed, Resident, Midway, FreeExact;
    TableIn(c);
    if n > 0 {
      RangeShrinks(c, pid, page, n, diskPage);
      AllocMidway(c, pid, page, n - 1, diskPage);
      AllocRangeStep(c, pid, page, n - 1, diskPage);
      var e := AllocRange(c, pid, page, n - 1, diskPage);
      AllocPageTable(e, PageKey(pid, page + n - 1), diskPage + n - 1);
      MidwayAdds(c.table, e.table, pid, page, Min(n - 1, |c.table.free|), PageKey(pid, page + n - 1));
    } else {
      AllocRangeNone(c, pid, page, diskPage);
      MidwayStart(c.table, pid, page);
    }
  }

  lemma MidwayStart(t: Table, pid: nat, page: nat)
    requires FreeExact(t)
    ensures Midway(t, t, pid, page, 0, 0)
  {
  }

  lemma AllocRangeNone(c: Cache, pid: nat, page: nat, diskPage: nat)
    requires Valid(c) && RangeFree(c, pid, page, 0, diskPage)
    ensures AllocRange(c, pid, page, 0, diskPage) == c
  {
  }

  lemma AllocPageTable(c: Cache, key: PageKey, diskPage: nat)
    requires WellFormed(c.table)
    ensures c.table.free == [] ==> AllocPage(c, key, diskPage).table == c.table
    ensures c.table.free != [] ==>
      c.table.free[0] < |c.table.slots| && AllocPage(c, key, diskPage).table == Add(c.table, key)
  {
  }

  lemma TableIn(c: Cache)
    requires Valid(c)
    ensures FreeExact(c.table)
  {
  }

  lemma MidwayAdds(t0: Table, t: Table, pid: nat, page: nat, hi: nat, key: PageKey)
    requires FreeExact(t0) && Midway(t0, t, pid, page, 0, hi)
    requires hi < |t0.free| ==> key == PageKey(pid, page + hi)
    ensures t.free == [] <==> hi == |t0.free|
    ensures t.free != [] ==> t.free[0] < |t.slots| && Midway(t0, Add(t, key), pid, page, 0, hi + 1)
  {
    if t.free != [] {
      assert t.free[0] == t0.free[hi];
      assert t0.free[hi..][1..] == t0.free[hi + 1..];
    }
  }

  lemma MidwayRemoves(t0: Table, t: Table, pid: nat, page: nat, lo: nat, hi: nat)
    requires FreeExact(t0) && WellFormed(t) && Midway(t0, t, pid, page, lo, hi) && lo < hi
    ensures Resident(t, PageKey(pid, page + lo))
    ensures Midway(t0, Remove(t, PageKey(pid, page + lo)), pid, page, lo + 1, hi)
  {
    var key := PageKey(pid, page + lo);
    assert HeldAt(t, key, t0.free[lo]);
    FrameIs(t, key, t0.free[lo]);
    assert t0.free[..lo] + [t0.free[lo]] == t0.free[..lo + 1];
  }

  /** A page that found no free frame when it was allocated is not resident. */
  lemma MidwayAbsent(t0: Table, t: Table, pid: nat, page: nat, lo: nat, hi: nat, key: PageKey)
    requires FreeExact(t0) && Midway(t0, t, pid, page, lo, hi)
    requires !Resident(t0, key) && (key.pid != pid || key.page < page + lo || key.page >= page + hi)
    ensures !Resident(t, key)
  {
    forall i ensures !HeldAt(t, key, i) {
      if 0 <= i < |t.slots| {
        assert i !in t0.free ==> !HeldAt(t0, key, i);
        assert forall j :: 0 <= j < |t0.free| ==> !HeldAt(t, key, t0.free[j]);
      }
    }
  }

  lemma {:induction false} FreeMidway(c: Cache, pid: nat, page: nat, n: nat, diskPage: nat, m: nat)
    requires Valid(c) && RangeFree(c, pid, page, n, diskPage) && m <= n
    ensures var d := AllocRange(c, pid, page, n, diskPage);
      Midway(c.table, FreeRange(d, pid, page, m).table, pid, page, Min(m, |c.table.free|), Min(n, |c.table.free|))
    decreases m
  {
    hide AllocRange, FreeRange, Midway, Remove, BindRange, UnbindRange, Valid, RangeFree, Resident, WellFormed,
      FreeExact, FreePage;
    var d := AllocRange(c, pid, page, n, diskPage);
    FreeRangeStep(d, pid, page, m);
    if m == 0 {
      AllocMidway(c, pid, page, n, diskPage);
    } else {
      FreeMidway(c, pid, page, n, diskPage, m - 1);
      var e := FreeRange(d, pid, page, m - 1);
      var lo, hi := Min(m - 1, |c.table.free|), Min(n, |c.table.free|);
      TableIn(c);
      TableOf(e);
      UnallocatedAbsent(c, pid, page, n, diskPage, m - 1);
      if m - 1 < |c.table.free| {
        MidwayRemoves(c.table, e.table, pid, page, lo, hi);
      } else {
        MidwayAbsent(c.table, e.table, pid, page, lo, hi, PageKey(pid, page + m - 1));
        RemoveAbsent(e.table, PageKey(pid, page + m - 1));
      }
    }
  }

  lemma TableOf(c: Cache)
    requires Valid(c)
    ensures WellFormed(c.table)
  {
  }

  lemma FreeRangeStep(d: Cache, pid: nat, page: nat, m: nat)
    requires Valid(d)
    ensures FreeRange(d, pid, page, 0) == d
    ensures m > 0 ==>
      FreeRange(d, pid, page, m).table == Remove(FreeRange(d, pid, page, m - 1).table, PageKey(pid, page + m - 1))
  {
    hide Valid;
  }

  lemma FreeRangeUnfolds(c: Cache, pid: nat, page: nat, n: nat)
    requires Valid(c)
    ensures FreeRange(c, pid, page, 0) == c
    ensures FreeRange(c, pid, page, n + 1) == FreePage(FreeRange(c, pid, page, n), PageKey(pid, page + n))
  {
    hide Valid, FreePage;
  }

  lemma RemoveAbsent(t: Table, key: PageKey)
    requires !Resident(t, key)
    ensures Remove(t, key) == t
  {
  }

  lemma UnallocatedAbsent(c: Cache, pid: nat, page: nat, n: nat, diskPage: nat, i: nat)
    requires Valid(c) && RangeFree(c, pid, page, n, diskPage) && i < n
    ensures !Resident(c.table, PageKey(pid, page + i))
  {
    assert PageKey(pid, page + i) !in c.backing;
  }

  /**
   Freeing what was just allocated restores the disk map, the disk and the residency of every page; only
   the queue of free frames has been rotated past the frames that were in use.
   */
  lemma AllocFreeRoundTrip(c: Cache, pid: nat, page: nat, n: nat, diskPage: nat)
    requires Valid(c) && RangeFree(c, pid, page, n, diskPage)
    ensures var k := Min(n, |c.table.free|);
      FreeRange(AllocRange(c, pid, page, n, diskPage), pid, page, n)
      == c.(table := Table(c.table.slots, c.table.free[k..] + c.table.free[..k]))
  {
    hide Valid, AllocRange, FreeRange;
    var d := AllocRange(c, pid, page, n, diskPage);
    var e := FreeRange(d, pid, page, n);
    FreeMidway(c, pid, page, n, diskPage, n);
    AllocRangeFrame(c, pid, page, n, diskPage);
    TableIn(c);
    assert e.backing == c.backing;
    MidwayBack(c.table, e.table, pid, page, Min(n, |c.table.free|));
  }

  lemma MidwayBack(t0: Table, t: Table, pid: nat, page: nat, k: nat)
    requires FreeExact(t0) && Midway(t0, t, pid, page, k, k)
    ensures t == Table(t0.slots, t0.free[k..] + t0.free[..k])
  {
    forall i | 0 <= i < |t0.slots| ensures t.slots[i] == t0.slots[i] {
      if i in t0.free {
        var j :| 0 <= j < |t0.free| && t0.free[j] == i;
        assert t0.slots[t0.free[j]].Vacant?;
      }
    }
    assert t.slots == t0.slots;
  }
}
