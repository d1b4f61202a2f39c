/** The memory management unit of vmsim/mmu.c: what it holds, and the steps that move single pages. */
module Mmus {
  import opened VmTypes
  import opened PageTable
  import C = Cache
  import opened Ipts
  import opened AssocMaps
  import opened Disks
  import opened Queues
  import opened Bitmaps

  lemma ZeroPages(data: seq<Byte>, size: nat, n: nat)
    requires n * size == |data| && forall i :: 0 <= i < |data| ==> data[i] == 0
    ensures PagesOf(data, size, n) == seq(n, _ => seq(size, _ => 0))
  {
    forall i | 0 <= i < n ensures PagesOf(data, size, n)[i] == seq(size, _ => 0) {
      assert PageEnd(i, n, size);
    }
  }

  class Mmu {
    const mem: array<Byte>
    const frames: int
    const pageSize: int
    const disk: Disk
    const memIpt: Ipt
    const diskMap: AssocMap<PageKey, int>
    const agingFreq: nat
    var nrefs: nat
    var hits: nat

    /** Observers: aging rounds run, page faults served. */
    ghost var rounds: nat
    ghost var swapIns: nat
    ghost var Repr: set<object>

    /** The parts are in order and share no storage. */
    ghost predicate Shape()
      reads this, Repr
      ensures Shape() ==> {this, mem, disk.data, disk.allocBitmap.data} <= Repr
    {
      && {this, mem, disk.data, disk.allocBitmap.data} <= Repr
      && mem != disk.data && mem != disk.allocBitmap.data
      && memIpt in Repr && diskMap in Repr && memIpt.Repr <= Repr && diskMap.Repr <= Repr
      && {this, mem, disk.data, disk.allocBitmap.data} !! memIpt.Repr
      && {this, mem, disk.data, disk.allocBitmap.data} !! diskMap.Repr
      && memIpt.Repr !! diskMap.Repr
      && memIpt.Valid() && diskMap.Valid() && disk.Valid()
      && memIpt.size == frames && pageSize > 0 && mem.Length == frames * pageSize && disk.pageSize == pageSize
    }

    /** The whole memory system as a value. */
    ghost function View(): C.Cache
      requires Shape()
      reads this, Repr
    {
      C.Cache(pageSize, memIpt.View(), PagesOf(mem[..], pageSize, frames), diskMap.Model, disk.Pages(), disk.Used(),
              C.Stats(memIpt.refCount, agingFreq, nrefs, hits, rounds, swapIns))
    }

    ghost predicate Valid()
      reads this, Repr
      ensures Valid() ==> this in Repr && Shape()
    {
      Shape() && C.Valid(View())
    }

    constructor (frames: int, pageSize: int, disk: Disk, agingFreq: nat)
      requires frames > 0 && pageSize > 0 && disk.Valid() && disk.pageSize == pageSize
      ensures Shape() && fresh(Repr - {disk.data, disk.allocBitmap.data}) && this.disk == disk
      ensures View() == C.Cache(pageSize, Table(seq(frames, _ => Vacant), seq(frames, i => i)),
        seq(frames, _ => seq(pageSize, _ => 0)), map[], disk.Pages(), disk.Used(), C.Stats(0, agingFreq, 0, 0, 0, 0))
    {
      hide Ipt.Valid, Ipt.Shape, AssocMap.Valid, PagesOf, Disk.Pages, Disk.Used;
      this.frames, this.pageSize, this.disk, this.agingFreq := frames, pageSize, disk, agingFreq;
      mem := new Byte[frames * pageSize](_ => 0);
      memIpt := new Ipt(frames);
      diskMap := new AssocMap();
      nrefs, hits, rounds, swapIns := 0, 0, 0, 0;
      new;
      Repr := {this, mem, disk.data, disk.allocBitmap.data} + memIpt.Repr + diskMap.Repr;
      ZeroPages(mem[..], pageSize, frames);
    }

    /** The source asserts that the page is absent. */
    method MapPage(key: PageKey) returns (err: ErrCode)
      requires Shape() && !Resident(View().table, key)
      modifies Repr
      ensures Shape() && fresh(Repr - old(Repr))
      ensures WellFormed(old(View()).table) && View() == C.MapPage(old(View()), key)
      ensures err == if old(View()).table.free == [] then EcFail else EcSuccess
    {
      hide Ipt.Valid, Ipt.Shape, AssocMap.Valid;
      memIpt.ViewWellFormed();
      err := memIpt.Add(key);
      Repr := Repr + memIpt.Repr;
    }

    method UnmapPage(key: PageKey) returns (err: ErrCode)
      requires Shape()
      modifies Repr
      ensures Shape() && fresh(Repr - old(Repr))
      ensures View() == C.Unmap(old(View()), key)
      ensures err == if Resident(old(View()).table, key) then EcSuccess else EcNotFound
    {
      hide Ipt.Valid, Ipt.Shape, AssocMap.Valid;
      err := memIpt.Remove(key);
      Repr := Repr + memIpt.Repr;
    }

    /** The source asserts that the page is allocated; it writes a dirty page to the disk and skips a clean one. */
    method SyncToBackingPage(key: PageKey) returns (err: ErrCode)
      requires Valid() && Resident(View().table, key)
      modifies disk.data
      ensures Valid() && View() == C.SyncTo(old(View()), key) && err == EcSuccess
    {
      hide Ipt.Valid, Ipt.Shape, AssocMap.Valid, PagesOf, Disk.Pages, Disk.Used;
      C.SyncToValid(View(), key);
      memIpt.ViewWellFormed();
      hide C.Valid, Resident;
      ResidentIsBacked(View(), key);
      ghost var c := View();
      var dirty := memIpt.IsDirty(key);
      if !dirty {
        return EcSuccess;
      }
      var memPage := memIpt.Translate(key);
      var diskPage := diskMap.Get(key);
      assert PageEnd(memPage, frames, pageSize);
      PagesIs(mem[..], pageSize, frames, memPage);
      err := disk.SetPage(diskPage.value, mem, memPage * pageSize);
      DiskWritten();
      assert View() == c.(disk := c.disk[diskPage.value := c.mem[memPage]]);
    }

    /** Note that a page fault has been served. */
    ghost method CountSwapIn()
      requires Valid()
      modifies `swapIns
      ensures Valid() && View() == old(View()).(stats := old(View()).stats.(swapIns := old(View()).stats.swapIns + 1))
    {
      hide Ipt.Valid, Ipt.Shape, AssocMap.Valid, PagesOf, Disk.Pages, Disk.Used;
      swapIns := swapIns + 1;
    }

    /** Load a mapped page from its disk page. */
    method SyncFromBackingPage(key: PageKey) returns (err: ErrCode)
      requires Valid() && Resident(View().table, key)
      modifies mem
      ensures Valid() && View() == C.Load(old(View()), key) && err == EcSuccess
    {
      hide Ipt.Valid, Ipt.Shape, AssocMap.Valid, PagesOf, Disk.Pages;
      LoadValid(View(), key);
      hide C.Valid;
      ResidentIsBacked(View(), key);
      var memPage := memIpt.Translate(key);
      var diskPage := diskMap.Get(key);
      assert PageEnd(memPage, frames, pageSize);
      ghost var was := mem[..];
      err := disk.GetPage(diskPage.value, mem, memPage * pageSize);
      MemoryWritten();
      CopyWholePage(was, mem[..], pageSize, frames, memPage, disk.Pages()[diskPage.value]);
    }

    method HasTranslation(key: PageKey) returns (r: bool)
      requires Valid()
      ensures r <==> Resident(View().table, key)
    {
      r := memIpt.HasTranslation(key);
    }

    method CountReference(hit: bool)
      requires Valid()
      modifies `nrefs, `hits
      ensures Valid()
      ensures var s := old(View()).stats;
        View() == old(View()).(stats := s.(nrefs := s.nrefs + 1, hits := s.hits + if hit then 1 else 0))
    {
      hide Ipt.Valid, Ipt.Shape, AssocMap.Valid, PagesOf, Disk.Pages, Disk.Used;
      if hit {
        hits := hits + 1;
      }
      nrefs := nrefs + 1;
    }

    method Reference(key: PageKey, write: bool)
      requires Valid() && Resident(View().table, key)
      modifies Repr
      ensures Valid() && Repr == old(Repr)
      ensures View() == C.Touch(old(View()), key, write)
    {
      hide Ipt.Valid, Ipt.Shape, AssocMap.Valid, PagesOf, Disk.Pages, Disk.Used;
      C.TouchValid(View(), key, write);
      hide C.Valid;
      memIpt.Reference(key, write);
    }

    /** Copy bytes of a resident page out of memory. */
    method CopyOut(key: PageKey, off: nat, n: nat, buf: array<Byte>, at: nat)
      requires Valid() && Resident(View().table, key) && off + n <= pageSize
      requires buf !in Repr && at + n <= buf.Length
      modifies buf
      ensures Valid() && View() == old(View())
      ensures buf[..] == old(buf[..at]) + C.BytesOf(View(), key, off, n) + old(buf[at + n..])
    {
      hide Ipt.Valid, Ipt.Shape, AssocMap.Valid, PagesOf, Disk.Pages, Disk.Used, C.Valid;
      memIpt.ViewWellFormed();
      var memPage := memIpt.Translate(key);
      ReadFrame(memPage, off, n, buf, at);
    }

    /** Copy bytes out of a frame. */
    method ReadFrame(frame: nat, off: nat, n: nat, buf: array<Byte>, at: nat)
      requires Shape() && frame < frames && off + n <= pageSize
      requires buf !in Repr && at + n <= buf.Length
      modifies buf
      ensures Shape() && View() == old(View()) && |View().mem[frame]| == pageSize
      ensures buf[..] == old(buf[..at]) + View().mem[frame][off..off + n] + old(buf[at + n..])
    {
      hide Ipt.Valid, Ipt.Shape, AssocMap.Valid, PagesOf, Disk.Pages, Disk.Used;
      PagesIs(mem[..], pageSize, frames, frame);
      SliceOfPage(mem[..], pageSize, frames, frame, off, n);
      assert mem[..][frame * pageSize + off..frame * pageSize + off + n] ==
        mem[frame * pageSize + off..frame * pageSize + off + n];
      CopyBytes(mem, frame * pageSize + off, buf, at, n);
    }

    /** Copy bytes into a resident page. */
    method CopyIn(key: PageKey, off: nat, n: nat, buf: array<Byte>, at: nat)
      requires Valid() && Resident(View().table, key) && off + n <= pageSize
      requires buf !in Repr && at + n <= buf.Length
      modifies mem
      ensures Valid() && View() == C.PatchPage(old(View()), key, off, buf[at..at + n])
    {
      hide Ipt.Valid, Ipt.Shape, AssocMap.Valid, PagesOf, Disk.Pages, Disk.Used;
      PatchValid(View(), key, off, buf[at..at + n]);
      PatchIs(View(), key, off, buf[at..at + n]);
      hide C.Valid, Resident, C.PatchPage, C.Patch;
      memIpt.ViewWellFormed();
      var memPage := memIpt.Translate(key);
      WriteFrame(memPage, off, n, buf, at);
    }

    /** Copy bytes to offset `off` of a frame. */
    method WriteFrame(frame: nat, off: nat, n: nat, buf: array<Byte>, at: nat)
      requires Shape() && frame < frames && off + n <= pageSize
      requires buf !in Repr && at + n <= buf.Length
      modifies mem
      ensures Shape()
      ensures var c := old(View());
        View() == c.(mem := c.mem[frame := C.Patch(c.mem[frame], off, buf[at..at + n])])
    {
      hide Ipt.Valid, Ipt.Shape, AssocMap.Valid, PagesOf, Disk.Pages, Disk.Used, C.Patch;
      PagesIs(mem[..], pageSize, frames, frame);
      ghost var was := mem[..];
      CopyBytes(buf, at, mem, frame * pageSize + off, n);
      MemoryWritten();
      CopyToPage(was, mem[..], pageSize, frames, frame, off, buf[at..at + n]);
    }

    /** Writing to the memory array changes the pages in memory and nothing else. */
    twostate lemma MemoryWritten()
      requires old(Shape()) && unchanged(this) && unchanged(Repr - {mem})
      ensures Shape() && View() == old(View()).(mem := PagesOf(mem[..], pageSize, frames))
    {
      hide Ipt.Valid, Ipt.Shape, AssocMap.Valid, PagesOf, Disk.Pages, Disk.Used;
    }

    /** Writing to the disk's array changes the pages on the disk and nothing else. */
    twostate lemma DiskWritten()
      requires old(Shape()) && unchanged(this) && unchanged(Repr - {disk.data})
      ensures Shape() && View() == old(View()).(disk := disk.Pages())
    {
      assert mem[..] == old(mem[..]);
      hide Ipt.Valid, Ipt.Shape, AssocMap.Valid, PagesOf, Disk.Pages, Disk.Used;
    }

    /** Record the disk page of a page that has none; the source asserts that it has none. */
    method Bind(key: PageKey, diskPage: nat)
      requires Shape() && key !in View().backing
      modifies Repr
      ensures Shape() && fresh(Repr - old(Repr))
      ensures View() == old(View()).(backing := old(View()).backing[key := diskPage])
    {
      hide Ipt.Valid, Ipt.Shape, AssocMap.Valid, PagesOf, Disk.Pages, Disk.Used;
      var bound := diskMap.Get(key);
      assert bound == None;
      diskMap.Set(key, diskPage);
      Repr := Repr + diskMap.Repr;
    }

    /** Forget the disk page of a page. */
    method Unbind(key: PageKey)
      requires Shape()
      modifies Repr
      ensures Shape() && fresh(Repr - old(Repr))
      ensures View() == old(View()).(backing := old(View()).backing - {key})
    {
      hide Ipt.Valid, Ipt.Shape, AssocMap.Valid, PagesOf, Disk.Pages, Disk.Used;
      var err := diskMap.Remove(key);
      Repr := Repr + diskMap.Repr;
    }

    /** Map a fresh page if a frame is free, and bind it to its disk page whether or not it was mapped. */
    method AllocPage(key: PageKey, backingPage: nat) returns (err: ErrCode)
      requires Valid() && key !in View().backing
      requires backingPage < |View().used| && View().used[backingPage] && backingPage !in View().backing.Values
      modifies Repr
      ensures Valid() && fresh(Repr - old(Repr)) && err == EcSuccess
      ensures WellFormed(old(View()).table) && View() == C.AllocPage(old(View()), key, backingPage)
    {
      hide Ipt.Valid, Ipt.Shape, AssocMap.Valid, PagesOf, Disk.Pages, Disk.Used;
      C.AllocValid(View(), key, backingPage);
      hide C.Valid, C.MapPage, Resident, WellFormed;
      err := MapPage(key);
      Bind(key, backingPage);
      err := EcSuccess;
    }

    /** Unmap a page if it is in memory, without writing it back, and forget its disk page. */
    method FreePage(key: PageKey) returns (err: ErrCode)
      requires Valid() && key in View().backing
      modifies Repr
      ensures Valid() && fresh(Repr - old(Repr)) && err == EcSuccess
      ensures View() == C.FreePage(old(View()), key)
    {
      hide Ipt.Valid, Ipt.Shape, AssocMap.Valid, PagesOf, Disk.Pages, Disk.Used;
      C.FreeValid(View(), key);
      hide C.Valid;
      err := UnmapPage(key);
      Unbind(key);
      err := EcSuccess;
    }

    /** The attached disk allocates a block. */
    method AllocBlock() returns (err: ErrCode, page: int)
      requires Valid()
      modifies disk.allocBitmap.data
      ensures Shape() && IsFirst(old(View()).used, false, page)
      ensures err == if page >= 0 && C.ClearRange(old(View()).used, page, disk.processBlockSize) then EcSuccess
        else EcFail
      ensures View() == if err == EcSuccess
        then old(View()).(used := C.SetRange(old(View()).used, page, disk.processBlockSize, true)) else old(View())
    {
      hide Ipt.Valid, Ipt.Shape, AssocMap.Valid, PagesOf, Disk.Pages, Disk.Used, C.Valid;
      err, page := disk.AllocProcessBlock();
    }

    /** The attached disk frees a block; the source asserts that its pages are allocated. */
    method FreeBlock(page: int)
      requires Valid() && 0 <= page && page + disk.processBlockSize <= disk.npages
      requires forall d :: page <= d < page + disk.processBlockSize ==> View().used[d]
      modifies disk.allocBitmap.data
      ensures Shape()
      ensures View() == old(View()).(used := C.SetRange(old(View()).used, page, disk.processBlockSize, false))
    {
      hide Ipt.Valid, Ipt.Shape, AssocMap.Valid, PagesOf, Disk.Pages, Disk.Used, C.Valid;
      disk.FreeProcessBlock(page);
    }

    /** Whether an aging round is to be run now. */
    method AgingDue() returns (due: bool)
      requires Valid()
      ensures due ==> C.AgeIfNeeded(View()).stats.rounds == View().stats.rounds + 1
      ensures !due ==> C.AgeIfNeeded(View()) == View()
    {
      due := memIpt.refCount >= agingFreq;
    }

    /** Zero the reference count and age every resident page. */
    method AgeRound()
      requires Valid()
      modifies Repr
      ensures Valid() && Repr == old(Repr)
      ensures View() == old(View()).(table := AgeAll(old(View()).table),
        stats := old(View()).stats.(refCount := 0, rounds := old(View()).stats.rounds + 1))
    {
      hide Ipt.Valid, Ipt.Shape, AssocMap.Valid, PagesOf, Disk.Pages, Disk.Used;
      AgedValid(View());
      hide C.Valid, AgeAll;
      memIpt.ZeroRefCount();
      memIpt.AgeAll();
      rounds := rounds + 1;
    }
  }

  lemma AgedValid(c: C.Cache)
    requires C.Valid(c)
    ensures C.Valid(c.(table := AgeAll(c.table)))
  {
    C.RetagValid(c, AgeAll(c.table));
  }

  lemma PatchValid(c: C.Cache, key: PageKey, off: nat, bytes: seq<Byte>)
    requires C.Valid(c) && Resident(c.table, key) && off + |bytes| <= c.pageSize
    ensures C.Valid(C.PatchPage(c, key, off, bytes))
  {
  }

  lemma PatchIs(c: C.Cache, key: PageKey, off: nat, bytes: seq<Byte>)
    requires C.Valid(c) && Resident(c.table, key) && off + |bytes| <= c.pageSize
    ensures var f := FrameOf(c.table, key);
      && 0 <= f < |c.mem| && off + |bytes| <= |c.mem[f]|
      && C.PatchPage(c, key, off, bytes) == c.(mem := c.mem[f := C.Patch(c.mem[f], off, bytes)])
  {
  }

  lemma ResidentIsBacked(c: C.Cache, key: PageKey)
    requires C.Valid(c) && Resident(c.table, key)
    ensures key in c.backing && 0 <= c.backing[key] < |c.used| == |c.disk| && c.used[c.backing[key]]
    ensures HeldAt(c.table, key, FrameOf(c.table, key))
  {
  }

  lemma LoadValid(c: C.Cache, key: PageKey)
    requires C.Valid(c) && Resident(c.table, key)
    ensures C.Valid(C.Load(c, key))
  {
  }

  lemma PagesIs(data: seq<Byte>, size: nat, n: nat, i: nat)
    requires n * size == |data| && i < n
    ensures PageEnd(i, n, size) && 0 <= i * size && i * size + size <= |data|
    ensures PagesOf(data, size, n)[i] == data[i * size..i * size + size]
  {
    assert PageEnd(i, n, size);
  }

  lemma SliceOfPage(data: seq<Byte>, size: nat, n: nat, i: nat, off: nat, m: nat)
    requires n * size == |data| && i < n && off + m <= size
    ensures 0 <= i * size + off && i * size + off + m <= |data|
    ensures PagesOf(data, size, n)[i][off..off + m] == data[i * size + off..i * size + off + m]
  {
    hide PagesOf;
    PagesIs(data, size, n, i);
    SliceOfSlice(data, PagesOf(data, size, n)[i], i * size, size, off, m);
  }

  lemma SliceOfSlice(s: seq<Byte>, page: Page, lo: nat, size: nat, off: nat, m: nat)
    requires lo + size <= |s| && page == s[lo..lo + size] && off + m <= size
    ensures page[off..off + m] == s[lo + off..lo + off + m]
  {
    var part, slice := page[off..off + m], s[lo + off..lo + off + m];
    forall j | 0 <= j < m ensures part[j] == slice[j] {
      assert page[off + j] == s[lo + (off + j)];
    }
  }

  lemma CopyWholePage(data: seq<Byte>, data': seq<Byte>, size: nat, n: nat, i: nat, page: Page)
    requires n * size == |data| == |data'| && i < n && |page| == size && i * size + size <= |data|
    requires data' == data[..i * size] + page + data[i * size + size..]
    ensures PagesOf(data', size, n) == PagesOf(data, size, n)[i := page]
  {
    CopyToPage(data, data', size, n, i, 0, page);
    assert C.Patch(PagesOf(data, size, n)[i], 0, page) == page;
  }
}
