/** Every step of a process thread keeps the invariant. */
module ProtocolProc {
  import opened VmTypes
  import opened PageTable
  import opened Cache
  import opened Protocol
  import opened ProtocolInv

  // ---------------------------------------------------------------- the shape of a process step

  /** What a process step does to the locks, against what the process holds before and after. */
  predicate LockMove(pid: nat, pc: Pc, pc': Pc, l: Locks, l': Locks) {
    var me := ProcT(pid);
    && l'.daemonMutex == l.daemonMutex
    && l'.container == (if HoldsContainer(pc) && !HoldsContainer(pc') then None else l.container)
    && (HoldsContainer(pc') ==> HoldsContainer(pc))
    && l'.writer == (if HoldsWrite(pc') then Some(me) else if HoldsWrite(pc) then None else l.writer)
    && (HoldsRead(pc') == HoldsRead(pc) ==> l'.readers == l.readers)
    && (HoldsRead(pc') && !HoldsRead(pc) ==> CanRead(l) && l'.readers == l.readers + {me})
    && (HoldsRead(pc) && !HoldsRead(pc') ==> l'.readers == l.readers - {me})
    && (HoldsWrite(pc') && !HoldsWrite(pc) ==> CanWrite(l))
    && !(HoldsRead(pc') && HoldsWrite(pc'))
  }

  predicate Moved(s: Sys, pid: nat, s': Sys) {
    && s'.prm == s.prm && s'.daemon == s.daemon && s'.blockSize == s.blockSize
    && pid < |s.procs| == |s'.procs|
    && s'.procs == s.procs[pid := s.procs[pid].(pc := s'.procs[pid].pc)]
    && LockMove(pid, s.procs[pid].pc, s'.procs[pid].pc, s.locks, s'.locks)
  }

  ghost predicate CanStep(s: Sys, pid: nat) {
    pid < |s.procs| && ProcEnabled(s, pid) && ProcAsserts(s, pid)
  }

  lemma LifeMoves(s: Sys, pid: nat)
    requires CanStep(s, pid) && InLife(s.procs[pid].pc)
    ensures Moved(s, pid, LifeNext(s, pid))
  {
    hide ProcAsserts, AllocPage, FreePage;
  }

  lemma PinMoves(s: Sys, pid: nat)
    requires CanStep(s, pid) && InPin(s.procs[pid].pc)
    ensures Moved(s, pid, PinNext(s, pid))
  {
    hide ProcAsserts, Resident;
  }

  lemma FaultMoves(s: Sys, pid: nat)
    requires CanStep(s, pid) && InFault(s.procs[pid].pc)
    ensures Moved(s, pid, FaultNext(s, pid))
  {
    hide ProcAsserts;
  }

  lemma AccessMoves(s: Sys, pid: nat)
    requires CanStep(s, pid) && InAccess(s.procs[pid].pc)
    ensures Moved(s, pid, AccessNext(s, pid))
  {
    hide ProcAsserts, Touch, PatchWritten, PatchFrame;
    var pc := s.procs[pid].pc;
    if pc.Copying? && pc.i < pc.job.Count() { CopyMoves(s, pid); hide CopyByte; }
  }

  lemma CopyMoves(s: Sys, pid: nat)
    requires CanStep(s, pid) && s.procs[pid].pc.Copying? && s.procs[pid].pc.i < s.procs[pid].pc.job.Count()
    ensures Moved(s, pid, CopyByte(s, pid))
  {
    hide ProcAsserts, PatchWritten, PatchFrame;
  }

  lemma MovedKeepsLocks(s: Sys, pid: nat, s': Sys)
    requires LockInv(s.procs, s.prm, s.daemon, s.locks) && Moved(s, pid, s')
    ensures LockInv(s'.procs, s'.prm, s'.daemon, s'.locks)
  {
  }

  // ---------------------------------------------------------------- what other processes rely on

  /** Process `q` sees the same bindings and flat bytes for its pages, and no dirty bit of its own cleared. */
  ghost predicate Undisturbed(s: Store, s': Store, q: nat) {
    && (forall k: PageKey, i :: k.pid == q ==> (HeldAt(s.cache.table, k, i) <==> HeldAt(s'.cache.table, k, i)))
    && (forall k: PageKey, i :: k.pid == q && HeldAt(s.cache.table, k, i) && s.cache.table.slots[i].dirty ==>
          HeldAt(s'.cache.table, k, i) && s'.cache.table.slots[i].dirty)
    && (forall k: PageKey :: k.pid == q ==>
          (k in s.flat <==> k in s'.flat) && (k in s.flat ==> s.flat[k] == s'.flat[k]))
  }

  lemma UndisturbedResident(s: Store, s': Store, q: nat, k: PageKey)
    requires Undisturbed(s, s', q) && k.pid == q
    ensures Resident(s.cache.table, k) <==> Resident(s'.cache.table, k)
  {
    if Resident(s.cache.table, k) { assert HeldAt(s'.cache.table, k, FrameOf(s.cache.table, k)); }
    if Resident(s'.cache.table, k) { assert HeldAt(s.cache.table, k, FrameOf(s'.cache.table, k)); }
  }

  lemma UndisturbedAccess(s: Store, s': Store, q: nat, pc: Pc)
    requires Undisturbed(s, s', q) && AccessOk(s, q, pc)
    ensures AccessOk(s', q, pc)
  {
    if pc.Pinned? || pc.Marked? { UndisturbedResident(s, s', q, KeyOf(q, pc.job)); }
  }

  lemma OthersKeepAccess(s: Sys, pid: nat, s': Sys)
    requires Moved(s, pid, s') && AccessInv(s.procs, s.store)
    requires forall q :: q != pid ==> Undisturbed(s.store, s'.store, q)
    requires AccessOk(s'.store, pid, s'.procs[pid].pc)
    ensures AccessInv(s'.procs, s'.store)
  {
    forall q | 0 <= q < |s'.procs| ensures AccessOk(s'.store, q, s'.procs[q].pc) {
      if q != pid {
        assert AccessOk(s.store, q, s.procs[q].pc);
        UndisturbedAccess(s.store, s'.store, q, s.procs[q].pc);
      }
    }
  }

  // ---------------------------------------------------------------- moves that leave most parts alone

  predicate InWait(pc: Pc) {
    pc.Waiting? || pc.Woken?
  }

  /** A move that touches neither the commands nor the aging flags, of a process that has no part in them. */
  predicate QuietMove(s: Sys, pid: nat, s': Sys) {
    && Moved(s, pid, s')
    && s'.work == s.work && s'.aging == s.aging
    && s'.store.cache.pageSize == s.store.cache.pageSize
    && !InWait(s.procs[pid].pc) && !InWait(s'.procs[pid].pc) && !s'.procs[pid].pc.Awaiting?
    && (HasJob(s'.procs[pid].pc) ==> HasJob(s.procs[pid].pc) && s'.procs[pid].pc.job == s.procs[pid].pc.job)
  }

  lemma QuietKeepsWork(s: Sys, pid: nat, s': Sys)
    requires QuietMove(s, pid, s')
    requires QueueInv(s.prm, s.work) && ServedInv(s.prm, s.work) && OwnerInv(s.procs, s.work)
    requires JobsInv(s.blockSize, s.procs, s.store.cache.pageSize) && AgingInv(s.procs, s.daemon, s.aging)
    ensures QueueInv(s'.prm, s'.work) && ServedInv(s'.prm, s'.work) && OwnerInv(s'.procs, s'.work)
    ensures JobsInv(s'.blockSize, s'.procs, s'.store.cache.pageSize) && AgingInv(s'.procs, s'.daemon, s'.aging)
  {
    hide QueueInv, ServedInv, LockMove;
  }

  /** The parts of the store that residency, coherence and the PRM depend on are the same. */
  predicate SameMemory(s: Store, s': Store) {
    && s'.flat == s.flat && s'.cache.pageSize == s.cache.pageSize
    && s'.cache.table == s.cache.table && s'.cache.mem == s.cache.mem
    && s'.cache.backing == s.cache.backing && s'.cache.disk == s.cache.disk
  }

  lemma SameMemoryIsUndisturbing(s: Store, s': Store, q: nat)
    requires SameMemory(s, s')
    ensures Undisturbed(s, s', q)
  {
  }

  lemma SameMemoryKeepsPrm(s: Sys, pid: nat, s': Sys)
    requires Moved(s, pid, s') && SameMemory(s.store, s'.store) && s'.aging.before == s.aging.before
    requires PrmInv(s.prm, s.store) && PassInv(s.daemon, s.aging.before, s.store.cache.table.slots)
    ensures PrmInv(s'.prm, s'.store) && PassInv(s'.daemon, s'.aging.before, s'.store.cache.table.slots)
  {
    hide LockMove;
  }

  /** Under a lock of its own a process can change the store: the PRM is not in the middle of a service. */
  lemma LockedKeepsPrm(s: Sys, pid: nat, s': Sys)
    requires Moved(s, pid, s') && s'.aging == s.aging
    requires LockInv(s.procs, s.prm, s.daemon, s.locks)
    requires PassInv(s.daemon, s.aging.before, s.store.cache.table.slots)
    requires HoldsWrite(s.procs[pid].pc) ||
      (HoldsRead(s.procs[pid].pc) && PassInv(s.daemon, s.aging.before, s'.store.cache.table.slots))
    ensures PrmInv(s'.prm, s'.store) && PassInv(s'.daemon, s'.aging.before, s'.store.cache.table.slots)
  {
    hide LockMove;
  }

  lemma UndisturbedKeepsAbsent(s: Sys, pid: nat, s': Sys)
    requires Moved(s, pid, s') && s'.work == s.work
    requires AbsentInv(s.procs, s.prm, s.work, s.store.cache.table) && OwnerInv(s.procs, s.work)
    requires !InWait(s.procs[pid].pc)
    requires forall q: nat :: q != pid ==> Undisturbed(s.store, s'.store, q)
    requires s'.procs[pid].pc.Missing? || s'.procs[pid].pc.Faulting? ==>
      !Resident(s'.store.cache.table, KeyOf(pid, s'.procs[pid].pc.job))
    ensures AbsentInv(s'.procs, s'.prm, s'.work, s'.store.cache.table)
  {
    hide LockMove, Undisturbed, Resident;
    forall k: PageKey | k.pid != pid
      ensures Resident(s.store.cache.table, k) <==> Resident(s'.store.cache.table, k)
    {
      UndisturbedResident(s.store, s'.store, k.pid, k);
    }
  }

  // ---------------------------------------------------------------- creation and destruction

  lemma LifeKeepsBlocks(s: Sys, pid: nat)
    requires CanStep(s, pid) && InLife(s.procs[pid].pc)
    requires BlocksInv(s.blockSize, s.procs, s.store.cache.used)
    ensures var s' := LifeNext(s, pid); BlocksInv(s'.blockSize, s'.procs, s'.store.cache.used)
  {
    hide BlocksInv, ProcAsserts, AllocPage, FreePage, SetRange, Moved, LockMove;
    if !s.procs[pid].pc.Unmapping? { AllocKeepsUsed(s, pid); }
    var pc := s.procs[pid].pc;
    if pc.Unmapping? && pc.next >= s.blockSize {
      ProcAssertsRange(s, pid);
      BlockGone(s.blockSize, s.procs, s.store.cache.used, pid);
    } else {
      BlocksStay(s.blockSize, s.procs, s.store.cache.used, pid, LifeNext(s, pid).procs[pid].pc);
    }
  }

  lemma AllocKeepsUsed(s: Sys, pid: nat)
    requires CanStep(s, pid) && InLife(s.procs[pid].pc)
    requires !s.procs[pid].pc.Unmapping?
    ensures LifeNext(s, pid).store.cache.used == s.store.cache.used
  {
    hide ProcAsserts, Add, Remove;
  }

  /** A process that dies takes its own block with it and no other. */
  lemma BlockGone(blockSize: nat, procs: seq<Proc>, used: seq<bool>, pid: nat)
    requires BlocksInv(blockSize, procs, used) && pid < |procs| && !procs[pid].pc.Dead?
    requires procs[pid].start + blockSize <= |used|
    ensures BlocksInv(blockSize, procs[pid := procs[pid].(pc := Dead)],
      SetRange(used, procs[pid].start, blockSize, false))
  {
    hide SetRange;
  }

  lemma ProcAssertsRange(s: Sys, pid: nat)
    requires CanStep(s, pid) && s.procs[pid].pc.Unmapping?
    ensures s.procs[pid].start + s.blockSize <= |s.store.cache.used|
  {
  }

  /** `pc` and `pc'` own the same pages, except that `pc'` also owns `page` if `gains`, and no longer if not. */
  ghost predicate OwnsUpTo(pc: Pc, pc': Pc, blockSize: nat, page: nat, gains: bool) {
    && page < blockSize
    && forall i: nat :: Owns(pc', blockSize, i) <==> if i == page then gains else Owns(pc, blockSize, i)
  }

  lemma OwnershipMoves(blockSize: nat, procs: seq<Proc>, backing: map<PageKey, int>, pid: nat, pc': Pc, page: nat,
      gains: bool)
    requires OwnInv(blockSize, procs, backing) && pid < |procs|
    requires Bounded(pc', blockSize) && OwnsUpTo(procs[pid].pc, pc', blockSize, page, gains)
    ensures OwnInv(blockSize, procs[pid := procs[pid].(pc := pc')],
      if gains then backing[PageKey(pid, page) := procs[pid].start + page] else backing - {PageKey(pid, page)})
  {
  }

  lemma OwnershipStays(blockSize: nat, procs: seq<Proc>, backing: map<PageKey, int>, pid: nat, pc': Pc)
    requires OwnInv(blockSize, procs, backing) && pid < |procs|
    requires Bounded(pc', blockSize)
    requires forall i: nat :: Owns(pc', blockSize, i) <==> Owns(procs[pid].pc, blockSize, i)
    ensures OwnInv(blockSize, procs[pid := procs[pid].(pc := pc')], backing)
  {
  }

  lemma LifeKeepsOwn(s: Sys, pid: nat)
    requires CanStep(s, pid) && InLife(s.procs[pid].pc)
    requires OwnInv(s.blockSize, s.procs, s.store.cache.backing)
    ensures var s' := LifeNext(s, pid); OwnInv(s'.blockSize, s'.procs, s'.store.cache.backing)
  {
    hide OwnInv;
    var pc, pc' := s.procs[pid].pc, LifeNext(s, pid).procs[pid].pc;
    OwnershipBounded(s, pid);
    if pc.MappingLocked? || pc.UnmappingLocked? {
      OwnershipMoves(s.blockSize, s.procs, s.store.cache.backing, pid, pc', pc.next, pc.MappingLocked?);
    } else {
      OwnershipStays(s.blockSize, s.procs, s.store.cache.backing, pid, pc');
    }
  }

  lemma OwnershipBounded(s: Sys, pid: nat)
    requires OwnInv(s.blockSize, s.procs, s.store.cache.backing) && pid < |s.procs|
    ensures Bounded(s.procs[pid].pc, s.blockSize)
  {
  }

  /** The next page of a process being created is not allocated yet, and neither is its disk page. */
  lemma NextPageIsFree(s: Sys, pid: nat)
    requires Inv(s) && pid < |s.procs| && s.procs[pid].pc.MappingLocked?
    ensures var pc := s.procs[pid].pc;
      && PageKey(pid, pc.next) !in s.store.cache.backing
      && s.procs[pid].start + pc.next < |s.store.cache.used| && s.store.cache.used[s.procs[pid].start + pc.next]
      && s.procs[pid].start + pc.next !in s.store.cache.backing.Values
  {
    hide QueueInv, ServedInv, OwnerInv, AbsentInv, PrmInv, JobsInv, AccessInv, AgingInv, PassInv, StoreInv;
    var b := s.store.cache.backing;
    forall k | k in b ensures b[k] != s.procs[pid].start + s.procs[pid].pc.next {
      assert Owns(s.procs[k.pid].pc, s.blockSize, k.page);
      assert s.procs[k.pid].start <= b[k] < s.procs[k.pid].start + s.blockSize;
    }
  }

  /** The pages of a block about to be freed back nothing. */
  lemma BlockIsUnmapped(s: Sys, pid: nat)
    requires CanStep(s, pid) && s.procs[pid].pc.Unmapping? && s.procs[pid].pc.next >= s.blockSize
    requires BlocksInv(s.blockSize, s.procs, s.store.cache.used) && OwnInv(s.blockSize, s.procs, s.store.cache.backing)
    requires Valid(s.store.cache)
    ensures var c := s.store.cache;
      forall k :: k in c.backing ==> SetRange(c.used, s.procs[pid].start, s.blockSize, false)[c.backing[k]]
  {
    var c := s.store.cache;
    forall k | k in c.backing ensures SetRange(c.used, s.procs[pid].start, s.blockSize, false)[c.backing[k]] {
      assert Owns(s.procs[k.pid].pc, s.blockSize, k.page);
      assert s.procs[k.pid].start <= c.backing[k] < s.procs[k.pid].start + s.blockSize;
    }
  }

  lemma WriterExcludesPrm(s: Sys, pid: nat)
    requires LockInv(s.procs, s.prm, s.daemon, s.locks) && pid < |s.procs|
    requires HoldsWrite(s.procs[pid].pc) || HoldsRead(s.procs[pid].pc)
    ensures !PrmWrites(s.prm) && LoadingKey(s) == None
  {
  }

  lemma MapStepKeepsStore(s: Sys, pid: nat)
    requires Inv(s) && CanStep(s, pid) && (s.procs[pid].pc.MappingLocked? || s.procs[pid].pc.UnmappingLocked?)
    ensures StoreInv(LifeNext(s, pid))
  {
    hide LockInv, BlocksInv, OwnInv, QueueInv, ServedInv, OwnerInv, AbsentInv, PrmInv, JobsInv, AccessInv, AgingInv,
      PassInv;
    hide Coherent, Valid, AllocPage, FreePage;
    var pc := s.procs[pid].pc;
    WriterExcludesPrm(s, pid);
    if pc.MappingLocked? {
      NextPageIsFree(s, pid);
      AllocCoherent(s.store.cache, s.store.flat, PageKey(pid, pc.next), s.procs[pid].start + pc.next);
    } else {
      FreeCoherent(s.store.cache, s.store.flat, PageKey(pid, pc.next));
    }
  }

  lemma LifeKeepsStore(s: Sys, pid: nat)
    requires Inv(s) && CanStep(s, pid) && InLife(s.procs[pid].pc)
    ensures StoreInv(LifeNext(s, pid))
  {
    hide LockInv, QueueInv, ServedInv, OwnerInv, AbsentInv, PrmInv, JobsInv, AccessInv, AgingInv, PassInv;
    var pc := s.procs[pid].pc;
    if pc.MappingLocked? || pc.UnmappingLocked? {
      MapStepKeepsStore(s, pid);
    } else if pc.Unmapping? && pc.next >= s.blockSize {
      hide Coherent, OwnInv, BlocksInv;
      BlockIsUnmapped(s, pid);
      UsedCoherent(s.store.cache, s.store.flat, LoadingKey(s), LifeNext(s, pid).store.cache.used);
    }
  }

  /** Mapping or unmapping a page of process `pid` disturbs no other process. */
  lemma LifeIsUndisturbing(s: Sys, pid: nat, q: nat)
    requires Inv(s) && CanStep(s, pid) && InLife(s.procs[pid].pc) && q != pid
    ensures Undisturbed(s.store, LifeNext(s, pid).store, q)
  {
    hide LockInv, BlocksInv, OwnInv, QueueInv, ServedInv, OwnerInv, AbsentInv, PrmInv, JobsInv, AccessInv, AgingInv,
      PassInv;
    hide Coherent, Undisturbed, AllocPage, FreePage, LockMove;
    var pc := s.procs[pid].pc;
    if pc.MappingLocked? {
      AllocIsUndisturbing(s.store, PageKey(pid, pc.next), s.procs[pid].start + pc.next, q);
    } else if pc.UnmappingLocked? {
      FreeIsUndisturbing(s.store, PageKey(pid, pc.next), q);
    } else {
      SameMemoryIsUndisturbing(s.store, LifeNext(s, pid).store, q);
    }
  }

  lemma AllocIsUndisturbing(s: Store, key: PageKey, diskPage: nat, q: nat)
    requires WellFormed(s.cache.table) && !Resident(s.cache.table, key) && key.pid != q
    ensures Undisturbed(s, Store(AllocPage(s.cache, key, diskPage), s.flat[key := map[]]), q)
  {
    var t := s.cache.table;
    if t.free != [] { AddWellFormed(t, key); }
  }

  lemma FreeIsUndisturbing(s: Store, key: PageKey, q: nat)
    requires WellFormed(s.cache.table) && key.pid != q
    ensures Undisturbed(s, Store(FreePage(s.cache, key), s.flat - {key}), q)
  {
    RemoveWellFormed(s.cache.table, key);
  }

  lemma LifeKeepsAccess(s: Sys, pid: nat)
    requires Inv(s) && CanStep(s, pid) && InLife(s.procs[pid].pc)
    ensures var s' := LifeNext(s, pid);
      && AccessInv(s'.procs, s'.store) && AbsentInv(s'.procs, s'.prm, s'.work, s'.store.cache.table)
      && PrmInv(s'.prm, s'.store) && PassInv(s'.daemon, s'.aging.before, s'.store.cache.table.slots)
  {
    hide BlocksInv, OwnInv, QueueInv, ServedInv, OwnerInv, AbsentInv, PrmInv, JobsInv, AccessInv, AgingInv, PassInv,
      StoreInv, LockInv;
    hide Undisturbed, LockMove, ProcAsserts, AllocPage, FreePage;
    LifeMoves(s, pid);
    var s' := LifeNext(s, pid);
    forall q: nat | q != pid ensures Undisturbed(s.store, s'.store, q) {
      LifeIsUndisturbing(s, pid, q);
    }
    OthersKeepAccess(s, pid, s');
    UndisturbedKeepsAbsent(s, pid, s');
    if HoldsWrite(s.procs[pid].pc) { LockedKeepsPrm(s, pid, s'); } else { SameMemoryKeepsPrm(s, pid, s'); }
  }

  lemma LifeKeepsInv(s: Sys, pid: nat)
    requires Inv(s) && CanStep(s, pid) && InLife(s.procs[pid].pc)
    ensures Inv(LifeNext(s, pid))
  {
    hide BlocksInv, OwnInv, QueueInv, ServedInv, OwnerInv, AbsentInv, PrmInv, JobsInv, AccessInv, AgingInv, PassInv,
      StoreInv, LockInv;
    hide LockMove, ProcAsserts, LifeNext;
    LifeMoves(s, pid);
    MovedKeepsLocks(s, pid, LifeNext(s, pid));
    LifeKeepsBlocks(s, pid);
    LifeKeepsOwn(s, pid);
    LifeIsQuiet(s, pid);
    QuietKeepsWork(s, pid, LifeNext(s, pid));
    LifeKeepsStore(s, pid);
    LifeKeepsAccess(s, pid);
  }

  lemma LifeIsQuiet(s: Sys, pid: nat)
    requires CanStep(s, pid) && InLife(s.procs[pid].pc)
    ensures QuietMove(s, pid, LifeNext(s, pid))
  {
    hide LockMove, ProcAsserts, Moved, Add, Remove;
    LifeMoves(s, pid);
    assert Moved(s, pid, LifeNext(s, pid));
  }

  // ---------------------------------------------------------------- moves that change no memory

  /** A step of a live process that stays live and leaves memory, disk, table and allocation alone. */
  predicate LightMove(s: Sys, pid: nat, s': Sys) {
    && Moved(s, pid, s')
    && !InLife(s.procs[pid].pc) && !s.procs[pid].pc.Dead?
    && !InLife(s'.procs[pid].pc) && !s'.procs[pid].pc.Dead?
    && SameMemory(s.store, s'.store) && s'.store.cache.used == s.store.cache.used
    && s'.aging.before == s.aging.before
  }

  lemma LightKeepsRest(s: Sys, pid: nat, s': Sys)
    requires LightMove(s, pid, s')
    requires BlocksInv(s.blockSize, s.procs, s.store.cache.used) && OwnInv(s.blockSize, s.procs, s.store.cache.backing)
    requires StoreInv(s) && LoadingKey(s') == LoadingKey(s)
    requires PrmInv(s.prm, s.store) && PassInv(s.daemon, s.aging.before, s.store.cache.table.slots)
    ensures BlocksInv(s'.blockSize, s'.procs, s'.store.cache.used)
      && OwnInv(s'.blockSize, s'.procs, s'.store.cache.backing)
    ensures StoreInv(s')
    ensures PrmInv(s'.prm, s'.store) && PassInv(s'.daemon, s'.aging.before, s'.store.cache.table.slots)
  {
    hide LockMove, Coherent, Valid, PrmInv, PassInv, OwnInv;
    OwnershipStays(s.blockSize, s.procs, s.store.cache.backing, pid, s'.procs[pid].pc);
    StatsCoherent(s.store.cache, s.store.flat, LoadingKey(s), s'.store.cache.stats);
    assert s'.store == Store(s.store.cache.(stats := s'.store.cache.stats), s.store.flat);
    SameMemoryKeepsPrm(s, pid, s');
  }

  lemma LightKeepsAccess(s: Sys, pid: nat, s': Sys)
    requires LightMove(s, pid, s')
    requires AccessInv(s.procs, s.store) && AccessOk(s'.store, pid, s'.procs[pid].pc)
    ensures AccessInv(s'.procs, s'.store)
  {
    hide LockMove;
    forall q: nat | q != pid ensures Undisturbed(s.store, s'.store, q) {
      SameMemoryIsUndisturbing(s.store, s'.store, q);
    }
    OthersKeepAccess(s, pid, s');
  }

  lemma LightKeepsAbsent(s: Sys, pid: nat, s': Sys)
    requires LightMove(s, pid, s') && s'.work == s.work && !InWait(s.procs[pid].pc)
    requires AbsentInv(s.procs, s.prm, s.work, s.store.cache.table) && OwnerInv(s.procs, s.work)
    requires s'.procs[pid].pc.Missing? || s'.procs[pid].pc.Faulting? ==>
      !Resident(s.store.cache.table, KeyOf(pid, s'.procs[pid].pc.job))
    ensures AbsentInv(s'.procs, s'.prm, s'.work, s'.store.cache.table)
  {
    hide LockMove, AbsentInv, OwnerInv;
    forall q: nat | q != pid ensures Undisturbed(s.store, s'.store, q) {
      SameMemoryIsUndisturbing(s.store, s'.store, q);
    }
    UndisturbedKeepsAbsent(s, pid, s');
  }

  /** A light move that is also quiet: only the process's own access needs a look. */
  lemma LightQuietKeepsInv(s: Sys, pid: nat, s': Sys)
    requires Inv(s) && LightMove(s, pid, s') && QuietMove(s, pid, s')
    requires AccessOk(s'.store, pid, s'.procs[pid].pc)
    requires s'.procs[pid].pc.Missing? || s'.procs[pid].pc.Faulting? ==>
      !Resident(s.store.cache.table, KeyOf(pid, s'.procs[pid].pc.job))
    ensures Inv(s')
  {
    hide LockInv, BlocksInv, OwnInv, QueueInv, ServedInv, OwnerInv, AbsentInv, PrmInv, JobsInv, AccessInv, AgingInv,
      PassInv, StoreInv;
    hide LockMove, AccessOk, Resident;
    MovedKeepsLocks(s, pid, s');
    QuietKeepsWork(s, pid, s');
    LightKeepsRest(s, pid, s');
    LightKeepsAccess(s, pid, s');
    LightKeepsAbsent(s, pid, s');
  }

  // ---------------------------------------------------------------- pinning

  lemma PinIsLight(s: Sys, pid: nat)
    requires CanStep(s, pid) && InPin(s.procs[pid].pc)
    ensures LightMove(s, pid, PinNext(s, pid)) && QuietMove(s, pid, PinNext(s, pid))
  {
    hide LockMove, ProcAsserts, Moved, Resident;
    PinMoves(s, pid);
  }

  lemma PinKeepsInv(s: Sys, pid: nat)
    requires Inv(s) && CanStep(s, pid) && InPin(s.procs[pid].pc)
    ensures Inv(PinNext(s, pid))
  {
    hide LockInv, BlocksInv, OwnInv, QueueInv, ServedInv, OwnerInv, PrmInv, JobsInv, AccessInv, AgingInv, PassInv,
      StoreInv;
    hide LockMove, ProcAsserts, Resident, Moved;
    PinIsLight(s, pid);
    LightQuietKeepsInv(s, pid, PinNext(s, pid));
  }

  // ---------------------------------------------------------------- faulting

  lemma FaultKeepsQueue(s: Sys, pid: nat)
    requires CanStep(s, pid) && InFault(s.procs[pid].pc)
    requires QueueInv(s.prm, s.work) && ServedInv(s.prm, s.work) && OwnerInv(s.procs, s.work)
    ensures var s' := FaultNext(s, pid); QueueInv(s'.prm, s'.work) && ServedInv(s'.prm, s'.work)
  {
    hide ProcAsserts;
  }

  lemma FaultKeepsOwner(s: Sys, pid: nat)
    requires CanStep(s, pid) && InFault(s.procs[pid].pc) && OwnerInv(s.procs, s.work)
    ensures var s' := FaultNext(s, pid); OwnerInv(s'.procs, s'.work)
  {
    hide ProcAsserts;
  }

  lemma FaultIsLight(s: Sys, pid: nat)
    requires CanStep(s, pid) && InFault(s.procs[pid].pc)
    requires QueueInv(s.prm, s.work) && OwnerInv(s.procs, s.work)
    ensures LightMove(s, pid, FaultNext(s, pid))
    ensures LoadingKey(FaultNext(s, pid)) == LoadingKey(s) && FaultNext(s, pid).aging == s.aging
  {
    hide LockMove, ProcAsserts, Moved;
    FaultMoves(s, pid);
  }

  lemma FaultKeepsAbsent(s: Sys, pid: nat)
    requires CanStep(s, pid) && InFault(s.procs[pid].pc)
    requires QueueInv(s.prm, s.work) && OwnerInv(s.procs, s.work)
    requires AbsentInv(s.procs, s.prm, s.work, s.store.cache.table)
    ensures var s' := FaultNext(s, pid); AbsentInv(s'.procs, s'.prm, s'.work, s'.store.cache.table)
  {
    hide ProcAsserts, Resident;
  }

  lemma FaultKeepsJobs(s: Sys, pid: nat)
    requires CanStep(s, pid) && InFault(s.procs[pid].pc)
    requires JobsInv(s.blockSize, s.procs, s.store.cache.pageSize) && AgingInv(s.procs, s.daemon, s.aging)
    ensures var s' := FaultNext(s, pid);
      JobsInv(s'.blockSize, s'.procs, s'.store.cache.pageSize) && AgingInv(s'.procs, s'.daemon, s'.aging)
  {
    hide ProcAsserts;
  }

  lemma FaultKeepsInv(s: Sys, pid: nat)
    requires Inv(s) && CanStep(s, pid) && InFault(s.procs[pid].pc)
    ensures Inv(FaultNext(s, pid))
  {
    hide LockInv, BlocksInv, OwnInv, QueueInv, ServedInv, OwnerInv, AbsentInv, PrmInv, JobsInv, AccessInv, AgingInv,
      PassInv, StoreInv;
    hide LockMove, ProcAsserts, Resident, Moved;
    var s' := FaultNext(s, pid);
    FaultIsLight(s, pid);
    MovedKeepsLocks(s, pid, s');
    FaultKeepsQueue(s, pid);
    FaultKeepsOwner(s, pid);
    FaultKeepsAbsent(s, pid);
    FaultKeepsJobs(s, pid);
    LightKeepsRest(s, pid, s');
    LightKeepsAccess(s, pid, s');
  }

  // ---------------------------------------------------------------- access and aging requests

  lemma TouchKeepsInv(s: Sys, pid: nat)
    requires Inv(s) && CanStep(s, pid) && s.procs[pid].pc.Pinned?
    ensures Inv(AccessNext(s, pid))
  {
    hide LockInv, BlocksInv, OwnInv, QueueInv, ServedInv, OwnerInv, AbsentInv, PrmInv, JobsInv, AccessInv, AgingInv,
      PassInv;
    hide LockMove, Moved, Coherent, Valid, Undisturbed;
    var s' := AccessNext(s, pid);
    var job := s.procs[pid].pc.job;
    AccessMoves(s, pid);
    WriterExcludesPrm(s, pid);
    MovedKeepsLocks(s, pid, s');
    QuietKeepsWork(s, pid, s');
    OwnershipStays(s.blockSize, s.procs, s.store.cache.backing, pid, s'.procs[pid].pc);
    BlocksStay(s.blockSize, s.procs, s.store.cache.used, pid, s'.procs[pid].pc);
    TouchCoherent(s.store.cache, s.store.flat, KeyOf(pid, job), job.WriteJob?);
    TouchDetails(s, pid);
    LockedKeepsPrm(s, pid, s');
    OthersKeepAccess(s, pid, s');
    UndisturbedKeepsAbsent(s, pid, s');
  }

  lemma BlocksStay(blockSize: nat, procs: seq<Proc>, used: seq<bool>, pid: nat, pc': Pc)
    requires BlocksInv(blockSize, procs, used) && pid < |procs|
    requires procs[pid].pc.Dead? == pc'.Dead?
    ensures BlocksInv(blockSize, procs[pid := procs[pid].(pc := pc')], used)
  {
  }

  /** Marking a page disturbs no other process, ages nothing, and leaves the page resident, dirty after a write. */
  lemma TouchDetails(s: Sys, pid: nat)
    requires Inv(s) && CanStep(s, pid) && s.procs[pid].pc.Pinned?
    ensures var s' := AccessNext(s, pid);
      && (forall q: nat :: q != pid ==> Undisturbed(s.store, s'.store, q))
      && AccessOk(s'.store, pid, s'.procs[pid].pc)
      && PassInv(s.daemon, s.aging.before, s'.store.cache.table.slots)
  {
    hide LockInv, BlocksInv, OwnInv, QueueInv, ServedInv, OwnerInv, AbsentInv, PrmInv, JobsInv, AccessInv, AgingInv;
    hide Coherent;
    var job := s.procs[pid].pc.job;
    var t := s.store.cache.table;
    SameBindingsKeep(t, Reference(t, KeyOf(pid, job), job.WriteJob?));
  }

  /** The frame of an access in progress holds the flat bytes of its page. */
  lemma FrameAgrees(s: Sys, pid: nat)
    requires Inv(s) && pid < |s.procs| && s.procs[pid].pc.Copying?
    ensures var Copying(job, frame, i, buf) := s.procs[pid].pc;
      && AccessOk(s.store, pid, s.procs[pid].pc)
      && FrameOf(s.store.cache.table, KeyOf(pid, job)) == frame
      && frame < |s.store.cache.mem| && |s.store.cache.mem[frame]| == s.store.cache.pageSize
      && job.off + job.Count() <= s.store.cache.pageSize
      && Holds(s.store.cache.mem[frame], s.store.flat[KeyOf(pid, job)])
  {
    hide LockInv, BlocksInv, OwnInv, QueueInv, ServedInv, OwnerInv, AbsentInv, PrmInv, AgingInv, PassInv;
    WriterExcludesPrm(s, pid);
    var Copying(job, frame, i, buf) := s.procs[pid].pc;
    assert AccessOk(s.store, pid, s.procs[pid].pc);
    FrameIs(s.store.cache.table, KeyOf(pid, job), frame);
    assert FrameCoherent(s.store.cache, s.store.flat, None, frame);
  }

  lemma CopyInKeepsInv(s: Sys, pid: nat)
    requires Inv(s) && CanStep(s, pid) && s.procs[pid].pc.Copying? && s.procs[pid].pc.job.WriteJob?
    requires s.procs[pid].pc.i < s.procs[pid].pc.job.Count()
    ensures Inv(AccessNext(s, pid))
  {
    hide LockInv, BlocksInv, OwnInv, QueueInv, ServedInv, OwnerInv, AbsentInv, PrmInv, JobsInv, AccessInv, AgingInv,
      PassInv;
    hide LockMove, Moved, Coherent, Valid, Undisturbed, Holds, PatchWritten, PatchFrame;
    var s' := AccessNext(s, pid);
    var Copying(job, frame, i, buf) := s.procs[pid].pc;
    AccessMoves(s, pid);
    WriterExcludesPrm(s, pid);
    MovedKeepsLocks(s, pid, s');
    CopyInDetails(s, pid);
    QuietKeepsWork(s, pid, s');
    OwnershipStays(s.blockSize, s.procs, s.store.cache.backing, pid, s'.procs[pid].pc);
    BlocksStay(s.blockSize, s.procs, s.store.cache.used, pid, s'.procs[pid].pc);
    FrameAgrees(s, pid);
    PatchCoherent(s.store.cache, s.store.flat, KeyOf(pid, job), job.off + i, [job.data[i]]);
    LockedKeepsPrm(s, pid, s');
    OthersKeepAccess(s, pid, s');
    UndisturbedKeepsAbsent(s, pid, s');
  }

  lemma CopyInDetails(s: Sys, pid: nat)
    requires Inv(s) && CanStep(s, pid) && s.procs[pid].pc.Copying? && s.procs[pid].pc.job.WriteJob?
    requires s.procs[pid].pc.i < s.procs[pid].pc.job.Count()
    ensures var s' := AccessNext(s, pid);
      && s'.store.cache.table == s.store.cache.table && s'.store.cache.backing == s.store.cache.backing
      && s'.store.cache.used == s.store.cache.used && s'.store.cache.pageSize == s.store.cache.pageSize
      && (forall q: nat :: q != pid ==> Undisturbed(s.store, s'.store, q))
      && AccessOk(s'.store, pid, s'.procs[pid].pc)
  {
    hide LockInv, BlocksInv, OwnInv, QueueInv, ServedInv, OwnerInv, AbsentInv, PrmInv, JobsInv, AccessInv, AgingInv,
      PassInv;
    hide Coherent, Valid;
    FrameAgrees(s, pid);
  }

  lemma CopyOutAccess(s: Sys, pid: nat)
    requires Inv(s) && CanStep(s, pid) && s.procs[pid].pc.Copying? && s.procs[pid].pc.job.ReadJob?
    requires s.procs[pid].pc.i < s.procs[pid].pc.job.Count()
    ensures var s' := AccessNext(s, pid); s'.store == s.store && AccessOk(s'.store, pid, s'.procs[pid].pc)
  {
    hide LockInv, BlocksInv, OwnInv, QueueInv, ServedInv, OwnerInv, AbsentInv, PrmInv, JobsInv, AccessInv, AgingInv,
      PassInv;
    hide Coherent, Valid;
    FrameAgrees(s, pid);
  }

  /** The translation finds the frame the page is in. */
  lemma MarkedAccess(s: Sys, pid: nat)
    requires Inv(s) && CanStep(s, pid) && s.procs[pid].pc.Marked?
    ensures var s' := AccessNext(s, pid); s'.store == s.store && AccessOk(s'.store, pid, s'.procs[pid].pc)
  {
    hide LockInv, BlocksInv, OwnInv, QueueInv, ServedInv, OwnerInv, AbsentInv, PrmInv, JobsInv, AgingInv, PassInv;
    WriterExcludesPrm(s, pid);
    var job := s.procs[pid].pc.job;
    assert AccessOk(s.store, pid, s.procs[pid].pc);
    var f := FrameOf(s.store.cache.table, KeyOf(pid, job));
    assert HeldAt(s.store.cache.table, KeyOf(pid, job), f);
    assert FrameCoherent(s.store.cache, s.store.flat, None, f);
  }

  predicate IsLightAccess(pc: Pc) {
    || pc.Marked? || pc.Counting? || pc.Zeroing?
    || (pc.Copying? && (pc.job.ReadJob? || pc.i >= pc.job.Count()))
  }

  lemma AccessIsLight(s: Sys, pid: nat)
    requires CanStep(s, pid) && IsLightAccess(s.procs[pid].pc)
    ensures LightMove(s, pid, AccessNext(s, pid)) && QuietMove(s, pid, AccessNext(s, pid))
  {
    hide LockMove, ProcAsserts, Moved;
    AccessMoves(s, pid);
  }

  lemma LightAccessKeepsInv(s: Sys, pid: nat)
    requires Inv(s) && CanStep(s, pid) && IsLightAccess(s.procs[pid].pc)
    ensures Inv(AccessNext(s, pid))
  {
    hide LockInv, BlocksInv, OwnInv, QueueInv, ServedInv, OwnerInv, AbsentInv, PrmInv, JobsInv, AccessInv, AgingInv,
      PassInv, StoreInv;
    hide LockMove, ProcAsserts, Moved, LightMove, QuietMove;
    var pc := s.procs[pid].pc;
    AccessIsLight(s, pid);
    if pc.Marked? { MarkedAccess(s, pid); }
    if pc.Copying? && pc.i < pc.job.Count() { CopyOutAccess(s, pid); }
    LightQuietKeepsInv(s, pid, AccessNext(s, pid));
  }

  /** Asking for an aging pass, and leaving when one is done. */
  lemma RequestKeepsInv(s: Sys, pid: nat)
    requires Inv(s) && CanStep(s, pid) && (s.procs[pid].pc.Requesting? || s.procs[pid].pc.Awaiting?)
    ensures Inv(AccessNext(s, pid))
  {
    hide BlocksInv, OwnInv, QueueInv, ServedInv, AbsentInv, PrmInv, AccessInv, AgingInv, PassInv, StoreInv, OwnerInv,
      JobsInv;
    hide LockMove, ProcAsserts, Moved;
    var s' := AccessNext(s, pid);
    AccessMoves(s, pid);
    MovedKeepsLocks(s, pid, s');
    assert LightMove(s, pid, s');
    LightKeepsRest(s, pid, s');
    LightKeepsAccess(s, pid, s');
    LightKeepsAbsent(s, pid, s');
    RequestKeepsAging(s, pid);
    RequestKeepsJobs(s, pid);
  }

  lemma RequestKeepsAging(s: Sys, pid: nat)
    requires CanStep(s, pid) && (s.procs[pid].pc.Requesting? || s.procs[pid].pc.Awaiting?)
    requires LockInv(s.procs, s.prm, s.daemon, s.locks) && AgingInv(s.procs, s.daemon, s.aging)
    ensures var s' := AccessNext(s, pid); AgingInv(s'.procs, s'.daemon, s'.aging)
  {
    hide ProcAsserts, CopyByte;
  }

  lemma RequestKeepsJobs(s: Sys, pid: nat)
    requires CanStep(s, pid) && (s.procs[pid].pc.Requesting? || s.procs[pid].pc.Awaiting?)
    requires OwnerInv(s.procs, s.work) && JobsInv(s.blockSize, s.procs, s.store.cache.pageSize)
    ensures var s' := AccessNext(s, pid);
      OwnerInv(s'.procs, s'.work) && JobsInv(s'.blockSize, s'.procs, s'.store.cache.pageSize)
  {
    RequestIs(s, pid);
    hide AccessNext, ProcAsserts;
  }

  /** An aging request moves its process and sets flags. */
  lemma RequestIs(s: Sys, pid: nat)
    requires CanStep(s, pid) && (s.procs[pid].pc.Requesting? || s.procs[pid].pc.Awaiting?)
    ensures var s' := AccessNext(s, pid);
      && pid < |s'.procs| && s'.procs == s.procs[pid := s.procs[pid].(pc := s'.procs[pid].pc)]
      && !HasJob(s'.procs[pid].pc) && !InWait(s'.procs[pid].pc)
      && s'.work == s.work && s'.store == s.store && s'.blockSize == s.blockSize
  {
    hide ProcAsserts, CopyByte;
  }

  lemma ProcKeepsInv(s: Sys, pid: nat)
    requires Inv(s) && CanStep(s, pid)
    ensures Inv(ProcNext(s, pid))
  {
    hide Inv, ProcAsserts, LifeNext, PinNext, FaultNext, AccessNext;
    var pc := s.procs[pid].pc;
    if InLife(pc) { LifeKeepsInv(s, pid); }
    else if InPin(pc) { PinKeepsInv(s, pid); }
    else if InFault(pc) { FaultKeepsInv(s, pid); }
    else if pc.Pinned? { TouchKeepsInv(s, pid); }
    else if IsLightAccess(pc) { LightAccessKeepsInv(s, pid); }
    else if pc.Copying? { CopyInKeepsInv(s, pid); }
    else { RequestKeepsInv(s, pid); }
  }
}
