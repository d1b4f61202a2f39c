/** The inverted page table of vmsim/ipt.c: hash anchors, chained entries and a queue of free frames. */
module Ipts {
  import opened VmTypes
  import opened PageTable
  import opened Queues
  import opened IptChains
  import opened Bits

  /** The head of bucket `h` and the chain behind it, by position. */
  lemma ChainHead(es: seq<Entry>, hat: seq<int>, chains: seq<seq<int>>, h: nat)
    requires ChainsOk(es, hat, chains) && h < |chains|
    ensures ChainOk(es, hat[h], chains[h], h)
  {
  }

  /** A page that is on no position of its chain is not resident. */
  lemma NotOnChain(es: seq<Entry>, hat: seq<int>, chains: seq<seq<int>>, free: seq<nat>, key: PageKey)
    requires ChainsOk(es, hat, chains)
    requires forall k :: 0 <= k < |chains[Hash(key, |es|)]| ==>
      0 <= chains[Hash(key, |es|)][k] < |es| && es[chains[Hash(key, |es|)][k]].key != key
    ensures !Resident(Table(SlotsOf(es), free), key)
  {
    forall i ensures !HeldAt(Table(SlotsOf(es), free), key, i) {
      assert 0 <= i < |es| && es[i].valid ==> i in chains[Hash(es[i].key, |es|)];
    }
  }

  /** The entries are properly chained, and without the chains make a well-formed table. */
  ghost predicate InOrder(es: seq<Entry>, hat: seq<int>, chains: seq<seq<int>>, free: seq<nat>) {
    ChainsOk(es, hat, chains) && WellFormed(Table(SlotsOf(es), free))
  }

  lemma InsertInOrder(es: seq<Entry>, hat: seq<int>, chains: seq<seq<int>>, free: seq<nat>, key: PageKey)
    requires InOrder(es, hat, chains, free) && free != []
    requires !Resident(Table(SlotsOf(es), free), key)
    ensures var h, idx := Hash(key, |es|), free[0];
      && idx < |es| == |chains| && !es[idx].valid && -1 <= Last(chains[h]) < |es| && Last(chains[h]) != idx
      && (Last(chains[h]) == IPT_INVALID <==> chains[h] == [])
      && var es' := Inserted(es, Last(chains[h]), idx, key);
      && InOrder(es', if chains[h] == [] then hat[h := idx] else hat, chains[h := chains[h] + [idx]], free[1..])
      && Table(SlotsOf(es'), free[1..]) == PageTable.Add(Table(SlotsOf(es), free), key)
  {
    hide Inserted, ChainOk;
    var t := Table(SlotsOf(es), free);
    assert t.slots[free[0]].Vacant?;
    LastInRange(es, hat, chains, Hash(key, |es|));
    LastIsValid(es, hat, chains, Hash(key, |es|));
    assert |chains| == |es|;
    hide ChainsOk;
    InsertKeepsChains(es, hat, chains, free[0], key);
    InsertedSlots(es, Last(chains[Hash(key, |es|)]), free[0], key);
    AddWellFormed(t, key);
  }

  /** Unlinking the entry of a resident page, wherever in its chain it is, and queueing its frame. */
  lemma UnlinkInOrder(es: seq<Entry>, hat: seq<int>, chains: seq<seq<int>>, free: seq<nat>, key: PageKey, idx: int)
      returns (k: nat)
    requires InOrder(es, hat, chains, free) && HeldAt(Table(SlotsOf(es), free), key, idx)
    ensures -1 <= es[idx].prev < |es| && -1 <= es[idx].next < |es|
    ensures var h := Hash(key, |es|);
      k < |chains[h]| && chains[h][k] == idx
      && InOrder(Unlinked(es, idx), if es[idx].prev == IPT_INVALID then hat[h := es[idx].next] else hat,
                 chains[h := Dropped(chains[h], k)], free + [idx])
      && Table(SlotsOf(Unlinked(es, idx)), free + [idx]) == PageTable.Remove(Table(SlotsOf(es), free), key)
  {
    var h, t := Hash(key, |es|), Table(SlotsOf(es), free);
    k :| 0 <= k < |chains[h]| && chains[h][k] == idx;
    hide ChainOk, Unlinked;
    UnlinkKeepsChains(es, hat, chains, h, k);
    hide ChainsOk;
    UnlinkedSlots(es, idx);
    FrameIs(t, key, idx);
    RemoveWellFormed(t, key);
  }

  /** With no valid entry, no chain and every frame queued, the table is in order. */
  lemma EmptyInOrder(es: seq<Entry>, hat: seq<int>, free: seq<nat>)
    requires |es| == |hat| == |free| > 0 && forall i :: 0 <= i < |free| ==> free[i] == i
    requires forall i :: 0 <= i < |es| ==> !es[i].valid && hat[i] == IPT_INVALID
    ensures InOrder(es, hat, seq(|es|, _ => []), free)
    ensures SlotsOf(es) == seq(|es|, _ => Vacant) && free == seq(|es|, i => i)
  {
    forall j | 0 <= j < |es| ensures j in free { assert free[j] == j; }
  }

  class Ipt {
    const entries: array<Entry>
    const hat: array<int>
    const freePages: Queue<nat>
    const size: int
    var refCount: nat

    /** The entries of each bucket, in chain order. */
    ghost var chains: seq<seq<int>>
    ghost var Repr: set<object>

    ghost predicate Shape()
      reads this, Repr
      ensures Shape() ==> this in Repr
    {
      && this in Repr && entries in Repr && hat in Repr && freePages in Repr
      && freePages.Repr <= Repr && {this, entries, hat} !! freePages.Repr
      && entries as object != hat as object
      && freePages.Valid()
      && size == entries.Length == hat.Length
    }

    ghost predicate Valid()
      reads this, Repr
      ensures Valid() ==> this in Repr && Shape()
    {
      Shape() && InOrder(entries[..], hat[..], chains, freePages.Contents)
    }

    /** The table without its chains. */
    ghost function View(): Table
      requires Shape()
      reads this, Repr
    {
      Table(SlotsOf(entries[..]), freePages.Contents)
    }

    lemma ViewWellFormed()
      requires Valid()
      ensures WellFormed(View()) && |View().slots| == size
    {
    }

    constructor (size: int)
      requires size > 0
      ensures Valid() && fresh(Repr) && this.size == size
      ensures View() == Table(seq(size, _ => Vacant), seq(size, i => i)) && refCount == 0
    {
      hide InOrder;
      this.size := size;
      entries := new Entry[size](_ => Entry(PageKey(0, 0), false, false, false, 0, 0, 0));
      hat := new int[size](_ => 0);
      freePages := new Queue<nat>();
      refCount := 0;
      chains := seq(size, _ => []);
      new;
      InitSlots(entries, hat, freePages);
      Repr := {this, entries, hat} + freePages.Repr;
      EmptyInOrder(entries[..], hat[..], freePages.Contents);
    }

    /** The loop of ipt_init: every link cleared, every bucket emptied, every frame queued as free. */
    static method InitSlots(entries: array<Entry>, hat: array<int>, free: Queue<nat>)
      requires entries.Length == hat.Length && entries as object != hat as object
      requires free.Valid() && free.Contents == [] && entries !in free.Repr && hat !in free.Repr
      requires forall j :: 0 <= j < entries.Length ==> !entries[j].valid
      modifies entries, hat, free.Repr
      ensures free.Valid() && fresh(free.Repr - old(free.Repr))
      ensures |free.Contents| == entries.Length && forall j :: 0 <= j < entries.Length ==> free.Contents[j] == j
      ensures forall j :: 0 <= j < entries.Length ==> !entries[j].valid && hat[j] == IPT_INVALID
    {
      var i := 0;
      while i < entries.Length
        invariant 0 <= i <= entries.Length
        invariant free.Valid() && fresh(free.Repr - old(free.Repr)) && entries !in free.Repr && hat !in free.Repr
        invariant |free.Contents| == i && forall j :: 0 <= j < i ==> free.Contents[j] == j
        invariant forall j :: 0 <= j < entries.Length ==> !entries[j].valid
        invariant forall j :: 0 <= j < i ==> hat[j] == IPT_INVALID
      {
        entries[i] := entries[i].(next := IPT_INVALID, prev := IPT_INVALID);
        hat[i] := IPT_INVALID;
        free.Push(i);
        i := i + 1;
      }
    }

    /** The entry of a page, found along the chain of its hash. */
    method GetVaddrIdx(key: PageKey) returns (idx: int)
      requires Valid()
      ensures idx == FrameOf(View(), key)
      ensures idx == IPT_INVALID <==> !Resident(View(), key)
    {
      ghost var h := Hash(key, size);
      ChainHead(entries[..], hat[..], chains, h);
      ghost var chain, k := chains[h], 0;
      idx := hat[Hash(key, size)];
      while idx != IPT_INVALID && entries[idx].key != key
        invariant 0 <= k <= |chain|
        invariant idx == if k < |chain| then chain[k] else IPT_INVALID
        invariant forall j :: 0 <= j < k ==> entries[chain[j]].key != key
        decreases |chain| - k
      {
        Neighbours(entries[..], hat[h], chain, h, k);
        assert entries[idx].valid;
        idx, k := entries[idx].next, k + 1;
      }
      if idx == IPT_INVALID {
        NotOnChain(entries[..], hat[..], chains, freePages.Contents, key);
      } else {
        assert HeldAt(View(), key, idx);
        FrameIs(View(), key, idx);
      }
    }

    method HasTranslation(key: PageKey) returns (r: bool)
      requires Valid()
      ensures r <==> Resident(View(), key)
    {
      var idx := GetVaddrIdx(key);
      r := idx != IPT_INVALID;
    }

    method IsDirty(key: PageKey) returns (dirty: bool)
      requires Valid() && Resident(View(), key)
      ensures dirty == View().slots[FrameOf(View(), key)].dirty
    {
      var idx := GetVaddrIdx(key);
      dirty := entries[idx].dirty;
    }

    method Translate(key: PageKey) returns (frame: int)
      requires Valid() && Resident(View(), key)
      ensures frame == FrameOf(View(), key) && HeldAt(View(), key, frame)
    {
      frame := GetVaddrIdx(key);
    }

    /** The last entry on the chain of a page's hash, or -1. */
    method HashListLastElement(key: PageKey) returns (prevIdx: int)
      requires Shape() && ChainsOk(entries[..], hat[..], chains)
      ensures prevIdx == Last(chains[Hash(key, size)])
    {
      ghost var h := Hash(key, size);
      ChainHead(entries[..], hat[..], chains, h);
      ghost var chain, k := chains[h], 0;
      var idx := hat[Hash(key, size)];
      prevIdx := IPT_INVALID;
      while idx != IPT_INVALID
        invariant 0 <= k <= |chain|
        invariant idx == if k < |chain| then chain[k] else IPT_INVALID
        invariant prevIdx == if k == 0 then IPT_INVALID else chain[k - 1]
        decreases |chain| - k
      {
        Neighbours(entries[..], hat[h], chain, h, k);
        prevIdx := idx;
        idx, k := entries[idx].next, k + 1;
      }
    }

    method GetNextFreeEntry() returns (idx: int)
      requires Shape()
      modifies freePages.Repr
      ensures Shape() && freePages.Repr == old(freePages.Repr)
      ensures old(freePages.Contents) == [] ==> idx == IPT_INVALID && freePages.Contents == []
      ensures old(freePages.Contents) != [] ==>
        idx == old(freePages.Contents)[0] && freePages.Contents == old(freePages.Contents)[1..]
    {
      if freePages.size == 0 {
        idx := IPT_INVALID;
      } else {
        var front := freePages.Pop();
        idx := front.value;
      }
    }

    /** Bind an absent page to the frame that has been free longest; fail when no frame is free. */
    method Add(key: PageKey) returns (err: ErrCode)
      requires Valid() && !Resident(View(), key)
      modifies Repr
      ensures Valid() && fresh(Repr - old(Repr)) && refCount == old(refCount)
      ensures err == if old(View()).free == [] then EcFail else EcSuccess
      ensures View() == if old(View()).free == [] then old(View()) else PageTable.Add(old(View()), key)
    {
      hide Queue.Valid, ChainsOk, WellFormed, Inserted;
      ghost var es, ht, free := entries[..], hat[..], freePages.Contents;
      if free != [] { InsertInOrder(es, ht, chains, free, key); }
      var newIdx := GetNextFreeEntry();
      if newIdx == IPT_INVALID {
        return EcFail;
      }
      var tailIdx := HashListLastElement(key);
      if tailIdx == IPT_INVALID {
        hat[Hash(key, size)] := newIdx;
      } else {
        entries[tailIdx] := entries[tailIdx].(next := newIdx);
      }
      entries[newIdx] := FreshEntry(key, -1, tailIdx);
      chains := chains[Hash(key, size) := chains[Hash(key, size)] + [newIdx]];
      InsertedIs(es, tailIdx, newIdx, key, entries[..]);
      assert hat[..] == if tailIdx == IPT_INVALID then ht[Hash(key, size) := newIdx] else ht;
      err := EcSuccess;
    }

    /** Delete one binding, wherever in its chain the entry is, and queue its frame last. */
    method Remove(key: PageKey) returns (err: ErrCode)
      requires Valid()
      modifies Repr
      ensures Valid() && fresh(Repr - old(Repr)) && refCount == old(refCount)
      ensures err == if old(Resident(View(), key)) then EcSuccess else EcNotFound
      ensures View() == PageTable.Remove(old(View()), key)
    {
      hide Queue.Valid, ChainsOk, WellFormed, Unlinked, Dropped, Hash, Resident;
      var idx := GetVaddrIdx(key);
      if idx == IPT_INVALID {
        return EcNotFound;
      }
      ghost var es, ht, free := entries[..], hat[..], freePages.Contents;
      ghost var k := UnlinkInOrder(es, ht, chains, free, key, idx);
      SizesInOrder(es, ht, chains, free);
      var prevIdx, nextIdx := entries[idx].prev, entries[idx].next;
      if prevIdx == IPT_INVALID {
        hat[Hash(key, size)] := nextIdx;
      }
      if nextIdx != IPT_INVALID {
        entries[nextIdx] := entries[nextIdx].(prev := prevIdx);
      }
      if prevIdx != IPT_INVALID {
        entries[prevIdx] := entries[prevIdx].(next := nextIdx);
      }
      entries[idx] := entries[idx].(valid := false);
      UnlinkedIs(es, idx, entries[..]);
      chains := chains[Hash(key, size) := Dropped(chains[Hash(key, size)], k)];
      freePages.Push(idx);
      Repr := Repr + freePages.Repr;
      err := EcSuccess;
    }

    /** Mark a resident page as referenced, and dirty after a write. */
    method Reference(key: PageKey, write: bool)
      requires Valid() && Resident(View(), key)
      modifies Repr
      ensures Valid() && Repr == old(Repr) && refCount == old(refCount) + 1
      ensures View() == PageTable.Reference(old(View()), key, write)
    {
      hide Queue.Valid, ChainsOk, WellFormed;
      ghost var es := entries[..];
      var idx := GetVaddrIdx(key);
      entries[idx] := entries[idx].(referenced := true);
      if write {
        entries[idx] := entries[idx].(dirty := true);
      }
      refCount := refCount + 1;
      RetagInOrder(es, hat[..], chains, freePages.Contents, entries[..]);
      assert View().slots == PageTable.Reference(old(View()), key, write).slots;
    }

    method ZeroRefCount()
      requires Valid()
      modifies `refCount
      ensures Valid() && refCount == 0 && View() == old(View())
    {
      hide InOrder;
      refCount := 0;
    }

    /** age_page on one entry: shift, then set the top bit to the reference bit. */
    method AgePage(i: nat)
      requires i < entries.Length
      modifies entries
      ensures entries[..] == old(entries[..])[i := old(entries[i]).(
        age := AgeStep(old(entries[i]).age, old(entries[i]).referenced), referenced := false)]
    {
      var age := entries[i].age / 2;
      Pow2Word();
      OrTopBit(age, 31);
      age := Or(age, if entries[i].referenced then TOP_BIT else 0);
      entries[i] := entries[i].(age := age, referenced := false);
    }

    /** One aging pass: ipt_for_each_entry applied to age_page. */
    method AgeAll()
      requires Valid()
      modifies Repr
      ensures Valid() && Repr == old(Repr) && refCount == old(refCount)
      ensures View() == PageTable.AgeAll(old(View()))
    {
      hide Queue.Valid, InOrder;
      ghost var es, ht, free := entries[..], hat[..], freePages.Contents;
      var i := 0;
      while i < size
        modifies entries
        invariant 0 <= i <= size
        invariant forall j :: 0 <= j < i ==> AgedEntry(es[j], entries[j])
        invariant forall j :: i <= j < size ==> entries[j] == es[j]
      {
        if entries[i].valid {
          AgePage(i);
        }
        i := i + 1;
      }
      assert hat[..] == ht && freePages.Contents == free;
      RetagInOrder(es, hat[..], chains, freePages.Contents, entries[..]);
      assert View().slots == PageTable.AgeAll(old(View())).slots;
    }
  }

  predicate AgedEntry(e: Entry, e': Entry) {
    e' == if e.valid then e.(age := AgeStep(e.age, e.referenced), referenced := false) else e
  }

  lemma SizesInOrder(es: seq<Entry>, hat: seq<int>, chains: seq<seq<int>>, free: seq<nat>)
    requires InOrder(es, hat, chains, free)
    ensures |es| == |hat| == |chains|
  {
  }

  lemma RetagInOrder(es: seq<Entry>, hat: seq<int>, chains: seq<seq<int>>, free: seq<nat>, es': seq<Entry>)
    requires InOrder(es, hat, chains, free) && |es'| == |es|
    requires forall i :: 0 <= i < |es| ==>
      es'[i].key == es[i].key && es'[i].valid == es[i].valid && es'[i].next == es[i].next && es'[i].prev == es[i].prev
    ensures InOrder(es', hat, chains, free)
  {
    RetagKeepsChains(es, hat, chains, es');
    hide ChainsOk;
    SameBindingsKeep(Table(SlotsOf(es), free), Table(SlotsOf(es'), free));
  }

  /** The writes of ipt_remove make the unlinked sequence. */
  lemma UnlinkedIs(es: seq<Entry>, idx: int, es': seq<Entry>)
    requires 0 <= idx < |es| && -1 <= es[idx].prev < |es| && -1 <= es[idx].next < |es|
    requires var prev, next := es[idx].prev, es[idx].next;
      var es1 := if next != IPT_INVALID then es[next := es[next].(prev := prev)] else es;
      var es2 := if prev != IPT_INVALID then es1[prev := es1[prev].(next := next)] else es1;
      es' == es2[idx := es2[idx].(valid := false)]
    ensures es' == Unlinked(es, idx)
  {
  }

  /** The two writes of ipt_add make the inserted sequence. */
  lemma InsertedIs(es: seq<Entry>, tail: int, idx: int, key: PageKey, es': seq<Entry>)
    requires -1 <= tail < |es| && 0 <= idx < |es| && tail != idx
    requires var es1 := if tail == IPT_INVALID then es else es[tail := es[tail].(next := idx)];
      es' == es1[idx := FreshEntry(key, -1, tail)]
    ensures es' == Inserted(es, tail, idx, key)
  {
  }
}
