/** The page replacement manager of vmsim/prm.c: choosing a victim, swapping out, serving a page fault. */
module Prms {
  import opened VmTypes
  import opened PageTable
  import C = Cache
  import opened IptChains
  import opened Ipts
  import opened AssocMaps
  import opened Disks
  import opened Mmus

  class Prm {
    const mmu: Mmu
    var oldestPageIdx: int
    var oldestPageKey: PageKey
    var oldestPageAge: Word
    var swapTarget: PageKey

    constructor (mmu: Mmu)
      ensures this.mmu == mmu && oldestPageIdx == -1
    {
      this.mmu := mmu;
      oldestPageIdx, oldestPageAge := -1, 0;
      oldestPageKey, swapTarget := PageKey(0, 0), PageKey(0, 0);
    }

    /** The accumulators hold the outcome `r` of the fold so far. */
    ghost predicate Holds(slots: seq<Slot>, r: int)
      reads this
    {
      if r == -1 then
        oldestPageIdx == -1
      else (
        && oldestPageIdx == 0 && 0 <= r < |slots| && slots[r].Held?
        && oldestPageAge == slots[r].age && oldestPageKey == slots[r].key)
    }

    /**
     One call of get_oldest_page, on the valid entry of frame `i`: accumulators that hold the first page of
     least age among the frames below `i` hold it for the frames up to `i`. The source's index counter never
     moves from 0.
     */
    method GetOldestPage(page: Entry, ghost slots: seq<Slot>, ghost i: nat)
      requires i < |slots| && page.valid && slots[i] == SlotOf(page)
      requires Holds(slots, Oldest(slots, swapTarget, i))
      modifies `oldestPageIdx, `oldestPageKey, `oldestPageAge
      ensures Holds(slots, Oldest(slots, swapTarget, i + 1))
    {
      var curIdx := 0;
      if (page.age < oldestPageAge || oldestPageIdx == -1) && page.key != swapTarget {
        oldestPageIdx, oldestPageAge, oldestPageKey := curIdx, page.age, page.key;
      }
    }

    /** The first resident page of least age, other than the one to load. */
    method GetPageToSwap(pageToLoad: PageKey) returns (victim: PageKey)
      requires mmu.Valid() && this !in mmu.Repr
      requires mmu.View().table.free == [] && !Resident(mmu.View().table, pageToLoad)
      modifies this
      ensures mmu.Valid() && mmu.View() == old(mmu.View())
      ensures victim == C.Victim(mmu.View(), pageToLoad)
    {
      hide Mmu.Valid, Mmu.Shape, Mmu.View, C.Valid, WellFormed, Oldest, Resident, SlotOf;
      ghost var slots := mmu.View().table.slots;
      EntriesAreSlots(mmu);
      ViewIsWellFormed(mmu);
      VictimIsOldest(mmu.View(), pageToLoad);
      oldestPageIdx := -1;
      swapTarget := pageToLoad;
      ForEachEntry(slots);
      victim := oldestPageKey;
    }

    /** The loop of ipt_for_each_entry, applied to get_oldest_page. */
    method ForEachEntry(ghost slots: seq<Slot>)
      requires oldestPageIdx == -1 && mmu.memIpt.size == mmu.memIpt.entries.Length == |slots|
      requires forall i :: 0 <= i < |slots| ==> slots[i] == SlotOf(mmu.memIpt.entries[i])
      modifies `oldestPageIdx, `oldestPageKey, `oldestPageAge
      ensures Holds(slots, Oldest(slots, swapTarget, |slots|))
    {
      hide Oldest;
      OldestOfNone(slots, swapTarget);
      var i := 0;
      while i < mmu.memIpt.size
        invariant 0 <= i <= |slots| && Holds(slots, Oldest(slots, swapTarget, i))
      {
        OldestSkipsVacant(slots, swapTarget, i);
        if mmu.memIpt.entries[i].valid {
          GetOldestPage(mmu.memIpt.entries[i], slots, i);
        }
        i := i + 1;
      }
    }

    static lemma OldestOfNone(slots: seq<Slot>, target: PageKey)
      ensures Oldest(slots, target, 0) == -1
    {
    }

    /** The outcome of the fold over all frames is the victim. */
    static lemma VictimIsOldest(c: C.Cache, target: PageKey)
      requires WellFormed(c.table) && c.table.free == [] && !Resident(c.table, target)
      ensures var r := Oldest(c.table.slots, target, |c.table.slots|);
        0 <= r < |c.table.slots| && c.table.slots[r].Held? && c.table.slots[r].key == C.Victim(c, target)
    {
      VictimExists(c.table, target);
    }

    static lemma OldestSkipsVacant(slots: seq<Slot>, target: PageKey, i: nat)
      requires i < |slots|
      ensures slots[i].Vacant? ==> Oldest(slots, target, i + 1) == Oldest(slots, target, i)
    {
    }

    static lemma EntriesAreSlots(mmu: Mmu)
      requires mmu.Valid()
      ensures mmu.memIpt.size == mmu.memIpt.entries.Length == |mmu.View().table.slots|
      ensures forall i :: 0 <= i < mmu.memIpt.size ==> mmu.View().table.slots[i] == SlotOf(mmu.memIpt.entries[i])
    {
    }

    static lemma ViewIsWellFormed(mmu: Mmu)
      requires mmu.Valid()
      ensures WellFormed(mmu.View().table)
    {
    }

    /** Write the page back if it is dirty, then unmap it. */
    method SwapOut(page: PageKey)
      requires mmu.Valid() && Resident(mmu.View().table, page) && this !in mmu.Repr
      modifies mmu.Repr
      ensures mmu.Valid() && fresh(mmu.Repr - old(mmu.Repr))
      ensures mmu.View() == C.Evict(old(mmu.View()), page)
    {
      hide Ipt.Valid, Ipt.Shape, AssocMap.Valid, PagesOf, Disk.Pages, Disk.Used;
      C.SyncToValid(mmu.View(), page);
      C.UnmapValid(C.SyncTo(mmu.View(), page), page);
      hide C.Valid;
      var err := mmu.SyncToBackingPage(page);
      assert err == EcSuccess;
      err := mmu.UnmapPage(page);
      assert err == EcSuccess;
    }

    /**
     Serve a page fault, as the PRM thread does under the write lock. The loop body runs at most once: after
     one eviction there is a free frame, since nobody else can take it (the comment at vmsim/prm.c:164-166
     expects otherwise).
     */
    method Serve(addr: PageKey)
      requires mmu.Valid() && this !in mmu.Repr
      requires !Resident(mmu.View().table, addr) && addr in mmu.View().backing
      modifies this, mmu.Repr
      ensures mmu.Valid() && this !in mmu.Repr && fresh(mmu.Repr - old(mmu.Repr))
      ensures mmu.View() == C.SwapIn(old(mmu.View()), addr)
    {
      hide Mmu.Shape, Mmu.View, C.Valid, C.Evict, C.Load, C.Victim, C.MapPage;
      ghost var c := mmu.View();
      RoomThenMap(c, addr);
      var err := mmu.MapPage(addr);
      while err != EcSuccess
        invariant mmu.Shape() && this !in mmu.Repr && fresh(mmu.Repr - old(mmu.Repr))
        invariant err != EcSuccess ==> mmu.View() == c && c.table.free == []
        invariant err == EcSuccess ==> mmu.View() == C.MapPage(C.MakeRoom(c, addr), addr)
        decreases err != EcSuccess
      {
        var vaddrToSwap := GetPageToSwap(addr);
        SwapOut(vaddrToSwap);
        err := mmu.MapPage(addr);
      }
      err := mmu.SyncFromBackingPage(addr);
      mmu.CountSwapIn();
    }

    /** A fault by the thread that waits for it: in a sequential run the command is served at once. */
    method PageFault(addr: PageKey) returns (err: ErrCode)
      requires mmu.Valid() && this !in mmu.Repr
      requires !Resident(mmu.View().table, addr) && addr in mmu.View().backing
      modifies this, mmu.Repr
      ensures mmu.Valid() && this !in mmu.Repr && fresh(mmu.Repr - old(mmu.Repr))
      ensures mmu.View() == C.SwapIn(old(mmu.View()), addr) && err == EcSuccess
    {
      Serve(addr);
      err := EcSuccess;
    }

    /** Making room and mapping: what the loop of Serve comes to. */
    static lemma RoomThenMap(c: C.Cache, addr: PageKey)
      requires C.Valid(c) && !Resident(c.table, addr) && addr in c.backing
      ensures C.Valid(C.MapPage(C.MakeRoom(c, addr), addr))
        && Resident(C.MapPage(C.MakeRoom(c, addr), addr).table, addr)
      ensures c.table.free == [] ==>
        C.MapPage(c, addr) == c && C.Valid(C.Evict(c, C.Victim(c, addr)))
          && C.MakeRoom(c, addr) == C.Evict(c, C.Victim(c, addr))
      ensures c.table.free != [] ==> C.MakeRoom(c, addr) == c
      ensures C.MakeRoom(c, addr).table.free != [] && !Resident(C.MakeRoom(c, addr).table, addr)
    {
      C.MakeRoomValid(c, addr);
      C.MapValid(C.MakeRoom(c, addr), addr);
    }
  }
}
