/**
 A page fault is served atomically: however the steps of other threads fall between those of the PRM, what it
 leaves behind is one swap-in of the cache as it found it when it took the lock (vmsim/prm.c:149-176).
 */
module ProtocolService {
  import opened VmTypes
  import opened PageTable
  import opened Cache
  import opened Protocol
  import opened ProtocolInv
  import opened ProtocolProc
  import opened ProtocolSystem
  import R = Runs

  /** Everything but the counters and the bits of disk pages in use, which others may change meanwhile. */
  predicate SameCore(c: Cache, d: Cache) {
    c.pageSize == d.pageSize && c.table == d.table && c.mem == d.mem && c.backing == d.backing && c.disk == d.disk
  }

  /** The page that the command in service names. */
  function ServedKey(s: Sys): Option<PageKey> {
    if !s.prm.PrmIdle? && s.prm.cmd in s.work.cmds then Some(s.work.cmds[s.prm.cmd].key) else None
  }

  /** How far the service of a fault on `key` has come, for a PRM that took the lock over `c0`. */
  ghost predicate ServiceOf(c0: Cache, key: PageKey, s: Sys)
    requires Valid(c0) && !Resident(c0.table, key) && key in c0.backing
  {
    var c := s.store.cache;
    && ServedKey(s) == Some(key)
    && match s.prm
       case MapTry(_, tries) =>
         if tries == 0 then SameCore(c, c0) else c0.table.free == [] && SameCore(c, MakeRoom(c0, key))
       case Choosing(_, _) => c0.table.free == [] && SameCore(c, c0)
       case Chosen(_, _, v) => c0.table.free == [] && v == Victim(c0, key) && SameCore(c, c0)
       case Synced(_, _, v) => c0.table.free == [] && v == Victim(c0, key) && SameCore(c, SyncTo(c0, v))
       case Mapped(_) => SameCore(c, MapPage(MakeRoom(c0, key), key))
       case Loaded(_) => SameCore(c, SwapIn(c0, key))
       case _ => false
  }

  lemma PrmServes(c0: Cache, key: PageKey, s: Sys)
    requires Valid(c0) && !Resident(c0.table, key) && key in c0.backing
    requires PrmCan(s) && PrmInv(s.prm, s.store) && ServiceOf(c0, key, s) && !s.prm.Loaded?
    ensures ServiceOf(c0, key, PrmNext(s))
  {
    hide Valid, WellFormed, Resident, Victim, Add, Remove;
    MakeRoomValid(c0, key);
    if s.prm.Choosing? { SameVictim(s.store.cache, c0, key); }
  }

  /** The victim depends on the table alone. */
  lemma SameVictim(c: Cache, d: Cache, key: PageKey)
    requires c.table == d.table && WellFormed(c.table) && c.table.free == [] && !Resident(c.table, key)
    ensures Victim(c, key) == Victim(d, key)
  {
    hide WellFormed, Resident;
  }

  lemma LockedOutMoves(s: Sys, pid: nat)
    requires Inv(s) && CanStep(s, pid) && PrmWrites(s.prm)
    ensures var s' := ProcNext(s, pid);
      s'.prm == s.prm && SameMemory(s.store, s'.store) && (ServedKey(s).Some? ==> ServedKey(s') == ServedKey(s))
  {
    hide BlocksInv, OwnInv, ServedInv, AbsentInv, PrmInv, JobsInv, AccessInv, AgingInv, PassInv, StoreInv, Resident;
    hide ProcAsserts;
    PrmExcludesReaders(s, s.store);
    LockedOutIsLight(s, pid);
    hide LockInv;
  }

  /** With the PRM writing, a process is at none of the steps that touch the store. */
  lemma LockedOutIsLight(s: Sys, pid: nat)
    requires LockInv(s.procs, s.prm, s.daemon, s.locks) && PrmWrites(s.prm) && pid < |s.procs|
    ensures !HoldsRead(s.procs[pid].pc) && !HoldsWrite(s.procs[pid].pc)
  {
  }

  /** While the PRM holds the lock, no other thread's step touches the table, the memory, the disk map or the disk. */
  lemma OthersLockedOut(s: Sys, step: Step)
    requires Inv(s) && Enabled(s, step) && PrmWrites(s.prm) && step != PrmStep
    ensures Next(s, step).Some?
    ensures var s' := Next(s, step).value;
      s'.prm == s.prm && SameMemory(s.store, s'.store) && (ServedKey(s).Some? ==> ServedKey(s') == ServedKey(s))
  {
    hide BlocksInv, OwnInv, QueueInv, ServedInv, OwnerInv, AbsentInv, PrmInv, JobsInv, AccessInv, AgingInv, PassInv,
      StoreInv;
    hide ProcNext, ProcAsserts, ProcEnabled, PrmNext, PrmAsserts, Inv;
    StepSafe(s, step);
    match step
    case Advance(pid) => LockedOutMoves(s, pid);
    case DaemonStep => DaemonOutside(s);
    case _ =>
  }

  /** The daemon is not in a pass while the PRM holds the lock. */
  lemma DaemonOutside(s: Sys)
    requires Inv(s) && PrmWrites(s.prm)
    ensures !DaemonReads(s.daemon)
  {
    hide BlocksInv, OwnInv, QueueInv, ServedInv, OwnerInv, AbsentInv, PrmInv, JobsInv, AccessInv, AgingInv, PassInv,
      StoreInv;
  }

  lemma StepServes(c0: Cache, key: PageKey, s: Sys, step: Step)
    requires Valid(c0) && !Resident(c0.table, key) && key in c0.backing
    requires Inv(s) && Enabled(s, step) && ServiceOf(c0, key, s) && PrmWrites(s.prm)
    requires s.prm.Loaded? ==> step != PrmStep
    ensures Next(s, step).Some? && ServiceOf(c0, key, Next(s, step).value)
  {
    hide Valid, Resident, PrmNext, PrmAsserts, ProcNext, DaemonNext, ProcAsserts, MakeRoom, SwapIn, MapPage, SyncTo,
      Victim;
    StepSafe(s, step);
    if step == PrmStep {
      PrmInvIn(s);
      PrmServes(c0, key, s);
    } else {
      OthersLockedOut(s, step);
    }
  }

  lemma PrmInvIn(s: Sys)
    requires Inv(s)
    ensures PrmInv(s.prm, s.store)
  {
  }

  /** In every state of the run the PRM has the write lock. */
  ghost predicate LockedThroughout(s: Sys, run: seq<Step>)
    requires IsRun(s, run)
    decreases |run|
  {
    && PrmWrites(s.prm)
    && (run != [] && Next(s, run[0]).Some? ==> LockedThroughout(Next(s, run[0]).value, run[1..]))
  }

  lemma {:induction false} RunServes(c0: Cache, key: PageKey, s: Sys, run: seq<Step>)
    requires Valid(c0) && !Resident(c0.table, key) && key in c0.backing
    requires Inv(s) && IsRun(s, run) && LockedThroughout(s, run) && ServiceOf(c0, key, s)
    ensures After(s, run).Some? && ServiceOf(c0, key, After(s, run).value)
    decreases |run|
  {
    hide Inv, Next, Enabled, ServiceOf, Valid, Resident;
    if run != [] {
      StepSafe(s, run[0]);
      if s.prm.Loaded? && run[0] == PrmStep { ReleaseEnds(s); }
      StepServes(c0, key, s, run[0]);
      RunServes(c0, key, Next(s, run[0]).value, run[1..]);
    }
  }

  /** With the page loaded the PRM's next step releases the lock. */
  lemma ReleaseEnds(s: Sys)
    requires s.prm.Loaded? && Enabled(s, PrmStep) && Next(s, PrmStep).Some?
    ensures !PrmWrites(Next(s, PrmStep).value.prm)
  {
  }

  /**
   From the step that takes the lock to the state in which the page has been loaded, over every interleaving,
   the PRM has made exactly one swap-in of the page its command names.
   */
  lemma ServiceIsAtomic(s: Sys, s1: Sys, run: seq<Step>)
    requires Reachable(s) && s.prm.Popped? && Enabled(s, PrmStep) && Next(s, PrmStep) == Some(s1)
    requires IsRun(s1, run) && LockedThroughout(s1, run)
    ensures After(s1, run).Some?
    ensures s.prm.cmd in s.work.cmds
    ensures var key, c := s.work.cmds[s.prm.cmd].key, s.store.cache;
      var s' := After(s1, run).value;
      && Valid(c) && !Resident(c.table, key) && key in c.backing
      && (s'.prm.Loaded? ==> SameCore(s'.store.cache, SwapIn(c, key)))
  {
    hide Reachable, Inv, IsRun, LockedThroughout, After, Valid, Resident, SwapIn, MakeRoom, MapPage, SyncTo, Victim;
    ReachableInv(s);
    StepSafe(s, PrmStep);
    PoppedIsFault(s);
    var key := s.work.cmds[s.prm.cmd].key;
    assert ServiceOf(s.store.cache, key, s1);
    RunServes(s.store.cache, key, s1, run);
  }

  lemma PoppedIsFault(s: Sys)
    requires Inv(s) && s.prm.Popped?
    ensures s.prm.cmd in s.work.cmds
    ensures var key, c := s.work.cmds[s.prm.cmd].key, s.store.cache;
      Valid(c) && !Resident(c.table, key) && key in c.backing
  {
    hide LockInv, BlocksInv, OwnInv, ServedInv, OwnerInv, PrmInv, JobsInv, AccessInv, AgingInv, PassInv, Resident,
      Coherent, Valid;
    ServicePage(s);
  }

  // ---------------------------------------------------------------- the states quantified over exist

  /** The system over the memory as its initialisers leave it, with `n` process slots. */
  function Boot(frames: nat, diskPages: nat, pageSize: nat, agingFreq: nat, blockSize: nat, n: nat): Sys {
    Sys(blockSize, seq(n, _ => Proc(Dead, 0)), PrmIdle, DaemonIdle, Locks(None, {}, None, None), Work([], map[], 0, []),
        Store(R.Initial(frames, diskPages, pageSize, agingFreq), map[]), Aging(false, false, 0, 0, []))
  }

  /** Every configuration with at least one frame and one byte a page has its initial state. */
  lemma BootIsReachable(frames: nat, diskPages: nat, pageSize: nat, agingFreq: nat, blockSize: nat, n: nat)
    requires frames > 0 && pageSize > 0
    ensures Reachable(Boot(frames, diskPages, pageSize, agingFreq, blockSize, n))
  {
    hide Valid, Coherent;
    R.InitialRefines(frames, diskPages, pageSize, agingFreq);
    var s := Boot(frames, diskPages, pageSize, agingFreq, blockSize, n);
    assert Initial(s) && IsRun(s, []) && After(s, []) == Some(s);
  }
}
