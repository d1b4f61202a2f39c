/** Reading, writing, allocating and freeing through the MMU (vmsim/mmu.c), with faults served in between. */
module MmuAccess {
  import opened VmTypes
  import opened PageTable
  import C = Cache
  import opened Ipts
  import opened AssocMaps
  import opened Disks
  import opened Mmus
  import opened Prms
  import opened PageRanges

  /** The MMU is in order and holds flat memory `w`. */
  ghost predicate Sound(mmu: Mmu, w: C.Flat)
    reads mmu, mmu.Repr
  {
    mmu.Valid() && C.Coherent(mmu.View(), w, None)
  }

  /** Make sure a page is resident, faulting until it is, and count the reference. */
  method PinPage(prm: Prm, page: PageKey) returns (err: ErrCode)
    requires prm.mmu.Valid() && prm !in prm.mmu.Repr && page in prm.mmu.View().backing
    modifies prm, prm.mmu.Repr
    ensures prm.mmu.Valid() && prm !in prm.mmu.Repr && fresh(prm.mmu.Repr - old(prm.mmu.Repr))
    ensures prm.mmu.View() == C.Pin(old(prm.mmu.View()), page) && err == EcSuccess
  {
    hide Mmu.Shape, C.Valid, C.SwapIn;
    var mmu := prm.mmu;
    ghost var c := mmu.View();
    C.PinValid(c, page);
    err := EcSuccess;
    var mapped := mmu.HasTranslation(page);
    if mapped {
      mmu.CountReference(true);
      return;
    }
    mmu.CountReference(false);
    ghost var c1 := mmu.View();
    var again := true;
    while again
      invariant mmu.Valid() && prm !in mmu.Repr && fresh(mmu.Repr - old(mmu.Repr))
      invariant again ==> mmu.View() == c1
      invariant !again ==> mmu.View() == C.SwapIn(c1, page) && err == EcSuccess
      decreases again
    {
      C.SwapInValid(c1, page);
      err := prm.PageFault(page);
      mapped := mmu.HasTranslation(page);
      again := err == EcSuccess && !mapped;
    }
  }

  /** Run an aging round when the reference count has reached the aging frequency. */
  method AgePagesIfNeeded(mmu: Mmu)
    requires mmu.Valid()
    modifies mmu.Repr
    ensures mmu.Valid() && mmu.Repr == old(mmu.Repr)
    ensures mmu.View() == C.AgeIfNeeded(old(mmu.View()))
  {
    hide Mmu.Shape, C.Valid;
    C.AgeValid(mmu.View());
    var due := mmu.AgingDue();
    if due {
      mmu.AgeRound();
    }
  }

  /** mmu_read: copy bytes of an allocated page to offset `at` of a buffer. */
  method Read(prm: Prm, addr: VirtAddr, nbytes: nat, buf: array<Byte>, at: nat, ghost w: C.Flat) returns (err: ErrCode)
    requires Sound(prm.mmu, w) && prm !in prm.mmu.Repr && buf !in prm.mmu.Repr
    requires addr.Key() in prm.mmu.View().backing && addr.offset + nbytes <= prm.mmu.pageSize
    requires at + nbytes <= buf.Length
    modifies prm, prm.mmu.Repr, buf
    ensures Sound(prm.mmu, w) && prm !in prm.mmu.Repr && fresh(prm.mmu.Repr - old(prm.mmu.Repr)) && err == EcSuccess
    ensures prm.mmu.View() == C.Read(old(prm.mmu.View()), addr.Key(), addr.offset, nbytes).0
    ensures buf[..] == old(buf[..at]) + C.Read(old(prm.mmu.View()), addr.Key(), addr.offset, nbytes).1
      + old(buf[at + nbytes..])
    ensures addr.Key() in w && forall o :: o in w[addr.Key()] && addr.offset <= o < addr.offset + nbytes ==>
      buf[at + o - addr.offset] == w[addr.Key()][o]
  {
    hide Mmu.Shape, C.Valid, C.Coherent, C.Pin, C.Touch, C.AgeIfNeeded;
    var mmu := prm.mmu;
    ghost var c := mmu.View();
    C.PinValid(c, addr.Key());
    C.TouchValid(C.Pin(c, addr.Key()), addr.Key(), false);
    C.ReadCoherent(c, w, addr.Key(), addr.offset, nbytes);
    err := PinPage(prm, addr.Key());
    mmu.Reference(addr.Key(), false);
    mmu.CopyOut(addr.Key(), addr.offset, nbytes, buf, at);
    AgePagesIfNeeded(mmu);
    err := EcSuccess;
  }

  /** mmu_write: copy bytes at offset `at` of a buffer to an allocated page. */
  method Write(prm: Prm, addr: VirtAddr, nbytes: nat, buf: array<Byte>, at: nat, ghost w: C.Flat) returns (err: ErrCode)
    requires Sound(prm.mmu, w) && prm !in prm.mmu.Repr && buf !in prm.mmu.Repr
    requires addr.Key() in prm.mmu.View().backing && addr.offset + nbytes <= prm.mmu.pageSize
    requires at + nbytes <= buf.Length
    modifies prm, prm.mmu.Repr
    ensures addr.Key() in w && prm.mmu.Shape()
    ensures prm.mmu.View() == C.Write(old(prm.mmu.View()), addr.Key(), addr.offset, old(buf[at..at + nbytes]))
    ensures Sound(prm.mmu, w[addr.Key() := C.PatchWritten(w[addr.Key()], addr.offset, buf[at..at + nbytes])])
    ensures prm !in prm.mmu.Repr && fresh(prm.mmu.Repr - old(prm.mmu.Repr)) && err == EcSuccess
  {
    hide Mmu.Shape, C.Valid, C.Coherent, C.Pin, C.Touch, C.AgeIfNeeded, C.PatchWritten;
    var mmu := prm.mmu;
    ghost var c := mmu.View();
    C.PinValid(c, addr.Key());
    C.TouchValid(C.Pin(c, addr.Key()), addr.Key(), true);
    C.WriteCoherent(c, w, addr.Key(), addr.offset, buf[at..at + nbytes]);
    PatchFits(C.Access(c, addr.Key(), true), addr.Key(), addr.offset, buf[at..at + nbytes]);
    err := PinPage(prm, addr.Key());
    mmu.Reference(addr.Key(), true);
    mmu.CopyIn(addr.Key(), addr.offset, nbytes, buf, at);
    AgePagesIfNeeded(mmu);
    err := EcSuccess;
  }

  lemma PatchFits(c: C.Cache, key: PageKey, off: nat, bytes: seq<Byte>)
    requires C.Valid(c) && Resident(c.table, key) && off + |bytes| <= c.pageSize
    ensures var f := FrameOf(c.table, key);
      0 <= f < |c.mem| && off + |bytes| <= |c.mem[f]|
        && C.PatchPage(c, key, off, bytes) == C.PatchFrame(c, f, off, bytes)
  {
  }

  /** mmu_alloc_multiple: consecutive pages of one process on consecutive disk pages. */
  method AllocMultiple(mmu: Mmu, pid: nat, firstPage: nat, npages: nat, firstBackingPage: nat) returns (err: ErrCode)
    requires mmu.Valid() && RangeFree(mmu.View(), pid, firstPage, npages, firstBackingPage)
    modifies mmu.Repr
    ensures mmu.Valid() && fresh(mmu.Repr - old(mmu.Repr)) && err == EcSuccess
    ensures C.Valid(old(mmu.View())) && RangeFree(old(mmu.View()), pid, firstPage, npages, firstBackingPage)
    ensures mmu.View() == AllocRange(old(mmu.View()), pid, firstPage, npages, firstBackingPage)
  {
    hide Mmu.Shape, Mmu.View, C.Valid, RangeFree, BindRange, C.AllocPage, WellFormed, AllocRange;
    ghost var c := mmu.View();
    var diskPage, curPage := firstBackingPage, firstPage;
    PrefixFree(c, pid, firstPage, npages, firstBackingPage, 0);
    AllocRangeNone(c, pid, firstPage, firstBackingPage);
    while diskPage < firstBackingPage + npages
      invariant firstBackingPage <= diskPage <= firstBackingPage + npages
      invariant curPage - firstPage == diskPage - firstBackingPage
      invariant mmu.Valid() && fresh(mmu.Repr - old(mmu.Repr))
      invariant RangeFree(c, pid, firstPage, curPage - firstPage, firstBackingPage)
      invariant mmu.View() == AllocRange(c, pid, firstPage, curPage - firstPage, firstBackingPage)
    {
      PrefixFree(c, pid, firstPage, npages, firstBackingPage, curPage - firstPage + 1);
      AllocRangeStep(c, pid, firstPage, curPage - firstPage, firstBackingPage);
      err := mmu.AllocPage(PageKey(pid, curPage), diskPage);
      if err != EcSuccess {
        return;
      }
      diskPage, curPage := diskPage + 1, curPage + 1;
    }
    err := EcSuccess;
  }

  lemma PrefixFree(c: C.Cache, pid: nat, page: nat, n: nat, diskPage: nat, m: nat)
    requires RangeFree(c, pid, page, n, diskPage) && m <= n
    ensures RangeFree(c, pid, page, m, diskPage)
    ensures m > 0 ==> diskPage + m - 1 < |c.used| && c.used[diskPage + m - 1]
  {
  }

  /** mmu_free_multiple: the source asserts that every page is allocated. */
  method FreeMultiple(mmu: Mmu, pid: nat, firstPage: nat, npages: nat) returns (err: ErrCode)
    requires mmu.Valid() && forall i :: firstPage <= i < firstPage + npages ==> PageKey(pid, i) in mmu.View().backing
    modifies mmu.Repr
    ensures mmu.Valid() && fresh(mmu.Repr - old(mmu.Repr)) && err == EcSuccess
    ensures C.Valid(old(mmu.View())) && mmu.View() == FreeRange(old(mmu.View()), pid, firstPage, npages)
  {
    hide Mmu.Shape, Mmu.View, C.Valid, C.FreePage, FreeRange, UnbindRange;
    ghost var c := mmu.View();
    FreeRangeUnfolds(c, pid, firstPage, 0);
    var i, curPage := 0, firstPage;
    while i < npages
      invariant 0 <= i <= npages && curPage == firstPage + i
      invariant mmu.Valid() && fresh(mmu.Repr - old(mmu.Repr))
      invariant mmu.View() == FreeRange(c, pid, firstPage, i)
    {
      FreeRangeUnfolds(c, pid, firstPage, i);
      err := mmu.FreePage(PageKey(pid, curPage));
      if err != EcSuccess {
        return;
      }
      i, curPage := i + 1, curPage + 1;
    }
    err := EcSuccess;
  }
}
