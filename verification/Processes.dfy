/** The process container of vmsim/pcb.c: slots, their disk blocks and their pages. */
module Processes {
  import opened VmTypes
  import opened PageTable
  import C = Cache
  import opened Bitmaps
  import opened Disks
  import opened Mmus
  import opened MmuAccess
  import opened PageRanges
  import opened Blocks
  import opened Runs
  import P = Protocol
  import PI = ProtocolInv

  datatype Process = Process(junk: bool, diskBlockStart: int, pid: nat)

  /** A slot as the owner of pages: dead while it is junk. */
  function AsProc(p: Process): P.Proc {
    P.Proc(if p.junk then P.Dead else P.Idle, if p.diskBlockStart >= 0 then p.diskBlockStart else 0)
  }

  function AsProcs(ps: seq<Process>): (r: seq<P.Proc>)
    ensures |r| == |ps| && forall i :: 0 <= i < |ps| ==> r[i] == AsProc(ps[i])
  {
    seq(|ps|, i requires 0 <= i < |ps| => AsProc(ps[i]))
  }

  /**
   Ownership: every live process has exactly pages 0 .. blockSize - 1, bound consecutively to a block of
   used disk pages of its own, and no other page is allocated.
   */
  ghost predicate Owned(blockSize: nat, ps: seq<Process>, c: C.Cache) {
    && (forall i :: 0 <= i < |ps| ==> ps[i].diskBlockStart >= 0)
    && PI.BlocksInv(blockSize, AsProcs(ps), c.used)
    && PI.OwnInv(blockSize, AsProcs(ps), c.backing)
  }

  // ---------------------------------------------------------------- creation and destruction on values

  lemma UsedValid(c: C.Cache, used: seq<bool>)
    requires C.Valid(c) && |used| == |c.used| && forall k :: k in c.backing ==> used[c.backing[k]]
    ensures C.Valid(c.(used := used))
  {
  }

  lemma BackedUsed(c: C.Cache)
    requires C.Valid(c)
    ensures forall k :: k in c.backing ==> 0 <= c.backing[k] < |c.used| && c.used[c.backing[k]]
  {
  }

  /** What a junk slot and a clear block become: an owner of fresh pages. */
  lemma CreateOwned(blockSize: nat, ps: seq<Process>, c: C.Cache, i: nat, start: nat)
    requires C.Valid(c) && Owned(blockSize, ps, c) && i < |ps| && ps[i].junk
    requires C.ClearRange(c.used, start, blockSize)
    ensures var c1 := c.(used := C.SetRange(c.used, start, blockSize, true));
      C.Valid(c1) && RangeFree(c1, i, 0, blockSize, start)
      && Owned(blockSize, ps[i := Process(false, start, i)], AllocRange(c1, i, 0, blockSize, start))
  {
    hide C.Valid, PI.BlocksInv, PI.OwnInv, AllocRange, BindRange;
    BackedIsUsed(c, start, blockSize);
    BackedUsed(c);
    UsedValid(c, C.SetRange(c.used, start, blockSize, true));
    JunkOwnsNothing(blockSize, ps, c.backing, i);
    NewBlockOwned(blockSize, ps, c.used, i, start);
    NewPagesOwned(blockSize, ps, c.backing, i, start);
  }

  lemma JunkOwnsNothing(blockSize: nat, ps: seq<Process>, backing: map<PageKey, int>, i: nat)
    requires PI.OwnInv(blockSize, AsProcs(ps), backing) && i < |ps| && ps[i].junk
    ensures forall k :: k in backing ==> k.pid != i
  {
    var procs := AsProcs(ps);
    forall k | k in backing ensures k.pid != i { assert PI.Owns(procs[k.pid].pc, blockSize, k.page); }
  }

  /** Disk pages that back something are used, so a clear range backs nothing. */
  lemma BackedIsUsed(c: C.Cache, start: nat, n: nat)
    requires C.Valid(c) && C.ClearRange(c.used, start, n)
    ensures forall d :: start <= d < start + n ==> d !in c.backing.Values
  {
    forall d | start <= d < start + n ensures d !in c.backing.Values {
      assert !c.used[d];
    }
  }

  lemma NewBlockOwned(blockSize: nat, ps: seq<Process>, used: seq<bool>, i: nat, start: nat)
    requires PI.BlocksInv(blockSize, AsProcs(ps), used) && i < |ps| && ps[i].junk
      && C.ClearRange(used, start, blockSize)
    ensures PI.BlocksInv(blockSize, AsProcs(ps[i := Process(false, start, i)]),
      C.SetRange(used, start, blockSize, true))
  {
    var procs, procs' := AsProcs(ps), AsProcs(ps[i := Process(false, start, i)]);
    forall q | 0 <= q < |procs| && !procs[q].pc.Dead?
      ensures procs[q].start + blockSize <= start || start + blockSize <= procs[q].start
    {
      assert blockSize > 0 ==> !used[start] && used[procs[q].start];
    }
  }

  lemma NewPagesOwned(blockSize: nat, ps: seq<Process>, backing: map<PageKey, int>, i: nat, start: nat)
    requires PI.OwnInv(blockSize, AsProcs(ps), backing) && i < |ps| && ps[i].junk
    ensures PI.OwnInv(blockSize, AsProcs(ps[i := Process(false, start, i)]), BindRange(backing, i, 0, blockSize, start))
  {
    hide BindRange;
    JunkOwnsNothing(blockSize, ps, backing, i);
    var procs, procs' := AsProcs(ps), AsProcs(ps[i := Process(false, start, i)]);
    assert procs' == procs[i := P.Proc(P.Idle, start)];
    hide AsProcs;
    var b := BindRange(backing, i, 0, blockSize, start);
    forall k: PageKey | k.pid < |procs'| && PI.Owns(procs'[k.pid].pc, blockSize, k.page) ensures k in b {
      if k.pid != i { assert PI.Owns(procs[k.pid].pc, blockSize, k.page); }
    }
  }

  // ---------------------------------------------------------------- destruction

  /** A live process has its pages and its block to give back. */
  lemma LiveOwns(blockSize: nat, ps: seq<Process>, c: C.Cache, i: nat)
    requires Owned(blockSize, ps, c) && i < |ps| && !ps[i].junk
    ensures forall p: nat :: p < blockSize ==> PageKey(i, p) in c.backing
    ensures ps[i].diskBlockStart + blockSize <= |c.used|
    ensures forall d :: ps[i].diskBlockStart <= d < ps[i].diskBlockStart + blockSize ==> c.used[d]
  {
    var procs := AsProcs(ps);
    forall p: nat | p < blockSize ensures PageKey(i, p) in c.backing {
      assert PI.Owns(procs[PageKey(i, p).pid].pc, blockSize, PageKey(i, p).page);
    }
    assert procs[i].start == ps[i].diskBlockStart;
  }

  lemma NoPagesOwned(blockSize: nat, ps: seq<Process>, backing: map<PageKey, int>, i: nat)
    requires PI.OwnInv(blockSize, AsProcs(ps), backing) && i < |ps| && !ps[i].junk
    ensures PI.OwnInv(blockSize, AsProcs(ps[i := ps[i].(junk := true)]), UnbindRange(backing, i, 0, blockSize))
  {
    hide UnbindRange;
    var procs, procs' := AsProcs(ps), AsProcs(ps[i := ps[i].(junk := true)]);
    assert procs' == procs[i := procs[i].(pc := P.Dead)];
    hide AsProcs;
    var b := UnbindRange(backing, i, 0, blockSize);
    forall k | k in b
      ensures k.pid < |procs'| && PI.Owns(procs'[k.pid].pc, blockSize, k.page) && b[k] == procs'[k.pid].start + k.page
    {
      assert PI.Owns(procs[k.pid].pc, blockSize, k.page);
    }
  }

  lemma NoBlockOwned(blockSize: nat, ps: seq<Process>, used: seq<bool>, i: nat)
    requires PI.BlocksInv(blockSize, AsProcs(ps), used) && i < |ps| && !ps[i].junk && ps[i].diskBlockStart >= 0
    requires ps[i].diskBlockStart + blockSize <= |used|
    ensures PI.BlocksInv(blockSize, AsProcs(ps[i := ps[i].(junk := true)]),
      C.SetRange(used, ps[i].diskBlockStart, blockSize, false))
  {
    var procs, procs' := AsProcs(ps), AsProcs(ps[i := ps[i].(junk := true)]);
    assert procs' == procs[i := procs[i].(pc := P.Dead)];
  }

  /** A page still allocated is not backed by the block of the process that has given up its pages. */
  lemma OtherElsewhere(blockSize: nat, ps: seq<Process>, c: C.Cache, i: nat, b: map<PageKey, int>, k: PageKey)
    requires Owned(blockSize, ps, c) && i < |ps| && !ps[i].junk
    requires b == UnbindRange(c.backing, i, 0, blockSize) && k in b
    ensures !(ps[i].diskBlockStart <= b[k] < ps[i].diskBlockStart + blockSize)
  {
    var procs := AsProcs(ps);
    assert k in c.backing && b[k] == c.backing[k] && !(k.pid == i && k.page < blockSize);
    hide UnbindRange, AsProcs;
    assert PI.Owns(procs[k.pid].pc, blockSize, k.page);
    assert procs[k.pid].start <= b[k] < procs[k.pid].start + blockSize;
    LiveStart(ps, i);
  }

  lemma LiveStart(ps: seq<Process>, i: nat)
    requires i < |ps| && !ps[i].junk && ps[i].diskBlockStart >= 0
    ensures AsProcs(ps)[i] == P.Proc(P.Idle, ps[i].diskBlockStart)
  {
  }

  lemma DestroyOwned(blockSize: nat, ps: seq<Process>, c: C.Cache, i: nat)
    requires C.Valid(c) && Owned(blockSize, ps, c) && i < |ps| && !ps[i].junk
    ensures var d := FreeRange(c, i, 0, blockSize);
      ps[i].diskBlockStart + blockSize <= |d.used|
      && var d1 := d.(used := C.SetRange(d.used, ps[i].diskBlockStart, blockSize, false));
      C.Valid(d1) && Owned(blockSize, ps[i := ps[i].(junk := true)], d1)
  {
    hide C.Valid, PI.BlocksInv, PI.OwnInv, FreeRange, UnbindRange;
    var d := FreeRange(c, i, 0, blockSize);
    LiveOwns(blockSize, ps, c, i);
    BackedUsed(d);
    var start := ps[i].diskBlockStart;
    var used := C.SetRange(d.used, start, blockSize, false);
    forall k | k in d.backing ensures used[d.backing[k]] {
      OtherElsewhere(blockSize, ps, c, i, d.backing, k);
    }
    UsedValid(d, used);
    NoPagesOwned(blockSize, ps, c.backing, i);
    NoBlockOwned(blockSize, ps, c.used, i);
  }

  /** A zeroed slot is taken for a live process, which owns nothing. */
  lemma ZeroedSlotOwnsNothing(blockSize: nat, ps: seq<Process>, c: C.Cache, i: nat)
    requires blockSize > 0 && Owned(blockSize, ps, c) && i < |ps| && ps[i].junk
    ensures !Owned(blockSize, ps[i := Process(false, 0, 0)], c)
  {
    var procs' := AsProcs(ps[i := Process(false, 0, 0)]);
    JunkOwnsNothing(blockSize, ps, c.backing, i);
    assert PI.Owns(procs'[i].pc, blockSize, 0);
    assert PageKey(i, 0).pid == i && PageKey(i, 0) !in c.backing;
  }

  predicate NoJunk(ps: seq<Process>) {
    forall i :: 0 <= i < |ps| ==> !ps[i].junk
  }

  predicate FirstJunk(ps: seq<Process>, i: int) {
    0 <= i < |ps| && ps[i].junk && forall j :: 0 <= j < i ==> !ps[j].junk
  }

  lemma {:induction false} FirstJunkExists(ps: seq<Process>) returns (i: nat)
    requires !NoJunk(ps)
    ensures FirstJunk(ps, i)
  {
    if ps[0].junk { return 0; }
    i := FirstJunkExists(ps[1..]);
    i := i + 1;
  }

  /** First fit finds a block: there is room for one at the first clear page. */
  ghost predicate BlockFound(used: seq<bool>, size: nat) {
    exists p: int :: IsFirst(used, false, p) && Allocates(used, size, p)
  }

  lemma NoBlockFound(used: seq<bool>, size: nat, p: int)
    requires IsFirst(used, false, p) && !Allocates(used, size, p)
    ensures !BlockFound(used, size)
  {
  }

  /**
   Where ownership is lost: one junk slot, and a disk of one page for blocks of two. Everything is owned
   before, the slot is the first junk one, there is no block, and the slot init_process leaves is not owned.
   */
  lemma FullDiskLosesOwnership()
    ensures var c, ps := Initial(1, 1, 1, 9), [Process(true, 0, 0)];
      && C.Valid(c) && Owned(2, ps, c)
      && FirstJunk(ps, 0) && !BlockFound(c.used, 2)
      && !Owned(2, ps[0 := Process(false, 0, 0)], c)
  {
    var c, ps := Initial(1, 1, 1, 9), [Process(true, 0, 0)];
    InitialRefines(1, 1, 1, 9);
    assert IsFirst(c.used, false, 0);
    NoBlockFound(c.used, 2, 0);
    assert Owned(2, ps, c);
    ZeroedSlotOwnsNothing(2, ps, c, 0);
  }

  // ---------------------------------------------------------------- the container

  class ProcCont {
    const processes: array<Process>
    const mmu: Mmu
    const blockSize: int

    ghost predicate Valid()
      reads this, processes, mmu, mmu.Repr
    {
      blockSize > 0 && mmu.Valid() && mmu.disk.processBlockSize == blockSize && processes !in mmu.Repr
    }

    /** Every live process owns its pages and block, and nobody owns anything else. */
    ghost predicate OwnedHere()
      requires Valid()
      reads this, processes, mmu, mmu.Repr
    {
      Owned(blockSize, processes[..], mmu.View())
    }

    constructor (nprocs: nat, blockSize: int, mmu: Mmu)
      requires blockSize > 0 && mmu.Valid() && mmu.disk.processBlockSize == blockSize && mmu.View().backing == map[]
      ensures Valid() && OwnedHere() && fresh(processes) && this.mmu == mmu && this.blockSize == blockSize
      ensures processes.Length == nprocs && forall i :: 0 <= i < nprocs ==> processes[i].junk
    {
      hide Mmu.Shape, C.Valid, Mmu.View;
      this.blockSize, this.mmu := blockSize, mmu;
      processes := new Process[nprocs](_ => Process(true, 0, 0));
    }

    /** First fit for the block, then a fresh mapping of every page of the process. */
    ghost predicate Created(c: C.Cache, pid: nat, page: int, d: C.Cache) {
      && IsFirst(c.used, false, page) && page >= 0 && blockSize >= 0 && C.ClearRange(c.used, page, blockSize)
      && var c1 := c.(used := C.SetRange(c.used, page, blockSize, true));
      && C.Valid(c1) && RangeFree(c1, pid, 0, blockSize, page)
      && d == AllocRange(c1, pid, 0, blockSize, page)
    }

    /**
     Take the first junk slot, allocate a block on the disk, map its pages, and create the thread, which the
     parameter says whether it succeeds. Returns the slot; or -1 when no slot is junk; or -2 when the disk has
     no block: then the slot, already zeroed, stays marked as live though it owns nothing; or -3 when there is
     no thread: then the slot is live and owns its pages. So ownership is kept exactly when, on entry, no slot
     is junk or first fit finds a block. (What the source then does, freeing a pointer into the slot array, is
     not modelled.)
     */
    method InitProcess(threadStarts: bool) returns (r: int)
      requires Valid() && OwnedHere()
      modifies processes, mmu.Repr
      ensures Valid() && fresh(mmu.Repr - old(mmu.Repr))
      ensures OwnedHere() <==> old(NoJunk(processes[..]) || BlockFound(mmu.View().used, blockSize))
      ensures old(NoJunk(processes[..])) ==>
        r == -1 && processes[..] == old(processes[..]) && mmu.View() == old(mmu.View())
      ensures old(!NoJunk(processes[..]) && !BlockFound(mmu.View().used, blockSize)) ==>
        && r == -2 && mmu.View() == old(mmu.View())
        && forall i :: FirstJunk(old(processes[..]), i) ==>
          processes[..] == old(processes[..])[i := Process(false, 0, 0)]
      ensures old(!NoJunk(processes[..]) && BlockFound(mmu.View().used, blockSize)) ==>
        forall i :: FirstJunk(old(processes[..]), i) ==>
          var page := processes[i].diskBlockStart;
          && r == (if threadStarts then i else -3)
          && processes[..] == old(processes[..])[i := Process(false, page, i)]
          && Created(old(mmu.View()), i, page, mmu.View())
    {
      hide Mmu.Shape, C.Valid, Mmu.View, Owned, AllocRange, RangeFree;
      ghost var c, ps := mmu.View(), processes[..];
      var i := 0;
      while i < processes.Length && !processes[i].junk
        invariant 0 <= i <= processes.Length && forall j :: 0 <= j < i ==> !processes[j].junk
      {
        i := i + 1;
      }
      if i >= processes.Length {
        return -1;
      }
      processes[i] := Process(false, 0, 0);
      var errs, page := mmu.AllocBlock();
      if errs != EcSuccess {
        ZeroedSlotOwnsNothing(blockSize, ps, c, i);
        NoBlockFound(c.used, blockSize, page);
        assert FirstJunk(ps, i);
        assert processes[..] == ps[i := Process(false, 0, 0)];
        return -2;
      }
      CreateOwned(blockSize, ps, c, i, page);
      errs := AllocMultiple(mmu, i, 0, blockSize, page);
      if errs != EcSuccess {
        return -2;
      }
      processes[i] := processes[i].(diskBlockStart := page);
      processes[i] := processes[i].(junk := false);
      processes[i] := processes[i].(pid := i);
      assert processes[..] == ps[i := Process(false, page, i)];
      assert FirstJunk(ps, i) && BlockFound(c.used, blockSize);
      r := if threadStarts then i else -3;
    }

    /** The part of process_dealloc that gives memory back: unmap every page, free the block, junk the slot. */
    method ProcessDealloc(pid: nat)
      requires Valid() && OwnedHere() && pid < processes.Length && !processes[pid].junk
      modifies processes, mmu.Repr
      ensures Valid() && OwnedHere() && fresh(mmu.Repr - old(mmu.Repr))
      ensures processes[..] == old(processes[..])[pid := old(processes[pid]).(junk := true)]
      ensures C.Valid(old(mmu.View()))
      ensures var start, d := old(processes[pid]).diskBlockStart, FreeRange(old(mmu.View()), pid, 0, blockSize);
        && 0 <= start && start + blockSize <= |d.used|
        && mmu.View() == d.(used := C.SetRange(d.used, start, blockSize, false))
    {
      hide Mmu.Shape, C.Valid, Mmu.View, FreeRange;
      ghost var c, ps := mmu.View(), processes[..];
      LiveOwns(blockSize, ps, c, pid);
      DestroyOwned(blockSize, ps, c, pid);
      hide PI.BlocksInv, PI.OwnInv;
      var start := processes[pid].diskBlockStart;
      var err := FreeMultiple(mmu, pid, 0, blockSize);
      UsedIsDisk(mmu);
      mmu.FreeBlock(start);
      processes[pid] := processes[pid].(junk := true);
      assert processes[..] == ps[pid := ps[pid].(junk := true)];
    }

    static lemma UsedIsDisk(mmu: Mmu)
      requires mmu.Valid()
      ensures |mmu.View().used| == mmu.disk.npages
    {
    }
  }

  /** Creating a process and destroying it at once restores every page's residency, the disk map and the disk. */
  lemma CreateDestroyRoundTrip(c: C.Cache, pid: nat, start: nat, blockSize: nat)
    requires C.Valid(c) && C.ClearRange(c.used, start, blockSize)
    requires var c1 := c.(used := C.SetRange(c.used, start, blockSize, true));
      C.Valid(c1) && RangeFree(c1, pid, 0, blockSize, start)
    ensures var c1 := c.(used := C.SetRange(c.used, start, blockSize, true));
      var d := FreeRange(AllocRange(c1, pid, 0, blockSize, start), pid, 0, blockSize);
      var k := Min(blockSize, |c.table.free|);
      d.(used := C.SetRange(d.used, start, blockSize, false))
      == c.(table := Table(c.table.slots, c.table.free[k..] + c.table.free[..k]))
  {
    hide C.Valid, AllocRange, FreeRange;
    var c1 := c.(used := C.SetRange(c.used, start, blockSize, true));
    AllocFreeRoundTrip(c1, pid, 0, blockSize, start);
    assert C.SetRange(c1.used, start, blockSize, false) == c.used;
  }
}
