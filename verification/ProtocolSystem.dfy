/** Steps of the PRM and of the aging daemon keep the invariant; so do all runs, and none trips an assertion. */
module ProtocolSystem {
  import opened VmTypes
  import opened PageTable
  import opened Cache
  import opened Protocol
  import opened ProtocolInv
  import opened ProtocolProc

  // ---------------------------------------------------------------- the PRM

  ghost predicate PrmCan(s: Sys) {
    PrmEnabled(s) && PrmAsserts(s)
  }

  lemma PrmKeepsLocks(s: Sys)
    requires PrmCan(s) && LockInv(s.procs, s.prm, s.daemon, s.locks)
    ensures var s' := PrmNext(s); LockInv(s'.procs, s'.prm, s'.daemon, s'.locks)
  {
    hide PrmAsserts, SyncTo, Load, Unmap, MapPage;
  }

  lemma PopKeepsWork(s: Sys)
    requires s.prm.PrmIdle? && s.work.queue != []
    requires QueueInv(s.prm, s.work) && ServedInv(s.prm, s.work)
    ensures var s' := PrmNext(s); QueueInv(s'.prm, s'.work) && ServedInv(s'.prm, s'.work)
  {
  }

  lemma CompleteKeepsWork(s: Sys)
    requires s.prm.Completing? && s.prm.cmd in s.work.cmds
    requires QueueInv(s.prm, s.work) && ServedInv(s.prm, s.work) && OwnerInv(s.procs, s.work)
    ensures var s' := PrmNext(s);
      QueueInv(s'.prm, s'.work) && ServedInv(s'.prm, s'.work) && OwnerInv(s'.procs, s'.work)
  {
    var w' := PrmNext(s).work;
    assert w'.served[|s.work.served|] == s.prm.cmd;
    assert forall c :: c in s.work.served ==> c in w'.served;
  }

  lemma PrmKeepsQueue(s: Sys)
    requires PrmCan(s) && QueueInv(s.prm, s.work) && ServedInv(s.prm, s.work) && OwnerInv(s.procs, s.work)
    ensures var s' := PrmNext(s);
      QueueInv(s'.prm, s'.work) && ServedInv(s'.prm, s'.work) && OwnerInv(s'.procs, s'.work)
  {
    hide SyncTo, Load, Unmap, MapPage, Victim;
    if s.prm.PrmIdle? { hide QueueInv, ServedInv; PopKeepsWork(s); }
    else if s.prm.Completing? { hide QueueInv, ServedInv, OwnerInv; CompleteKeepsWork(s); }
    else { hide QueueInv, ServedInv, OwnerInv; ServiceKeepsWork(s); }
  }

  /** While a command is in service the work is as it was. */
  lemma ServiceKeepsWork(s: Sys)
    requires PrmCan(s) && !s.prm.PrmIdle? && !s.prm.Completing?
    requires QueueInv(s.prm, s.work) && ServedInv(s.prm, s.work)
    ensures var s' := PrmNext(s);
      s'.work == s.work && s'.procs == s.procs && QueueInv(s'.prm, s'.work) && ServedInv(s'.prm, s'.work)
  {
    assert PrmNext(s).work == s.work && PrmNext(s).procs == s.procs && !PrmNext(s).prm.PrmIdle? &&
           PrmNext(s).prm.cmd == s.prm.cmd by {
      hide SyncTo, Load, Unmap, MapPage, Victim, PrmAsserts, QueueInv, ServedInv;
    }
    hide PrmNext, PrmAsserts;
  }

  /** While the PRM holds the write lock no access and no aging pass is in progress, whatever the store. */
  lemma PrmExcludesReaders(s: Sys, st: Store)
    requires LockInv(s.procs, s.prm, s.daemon, s.locks) && PrmWrites(s.prm)
    ensures AccessInv(s.procs, st) && PassInv(s.daemon, s.aging.before, st.cache.table.slots)
    ensures forall p :: 0 <= p < |s.procs| ==> !HoldsRead(s.procs[p].pc)
  {
  }

  /** Two commands never name the same page. */
  lemma CommandsDistinct(s: Sys, c1: nat, c2: nat)
    requires OwnerInv(s.procs, s.work)
    requires c1 in s.work.cmds && c2 in s.work.cmds && s.work.cmds[c1].key == s.work.cmds[c2].key
    ensures c1 == c2
  {
  }

  /** The page the PRM serves is allocated and belongs to a process that waits for it. */
  lemma ServicePage(s: Sys)
    requires OwnerInv(s.procs, s.work) && QueueInv(s.prm, s.work) && !s.prm.PrmIdle?
    requires OwnInv(s.blockSize, s.procs, s.store.cache.backing)
    requires JobsInv(s.blockSize, s.procs, s.store.cache.pageSize)
    ensures s.prm.cmd in s.work.cmds
    ensures var key := s.work.cmds[s.prm.cmd].key;
      key in s.store.cache.backing && key.pid < |s.procs| && HasCmd(s.procs[key.pid].pc, s.prm.cmd)
  {
    var key := s.work.cmds[s.prm.cmd].key;
    assert HasCmd(s.procs[key.pid].pc, s.prm.cmd);
    assert Owns(s.procs[key.pid].pc, s.blockSize, key.page);
  }

  lemma PrmMapKeepsAbsent(s: Sys)
    requires Inv(s) && PrmCan(s) && s.prm.MapTry? && s.store.cache.table.free != []
    ensures var s' := PrmNext(s); AbsentInv(s'.procs, s'.prm, s'.work, s'.store.cache.table)
  {
    hide BlocksInv, OwnInv, ServedInv, JobsInv, AccessInv, AgingInv, PassInv, LockInv, PrmInv, Resident, Add, Coherent;
    PrmExcludesReaders(s, s.store);
    AddWellFormed(s.store.cache.table, s.work.cmds[s.prm.cmd].key);
  }

  lemma PrmEvictKeepsAbsent(s: Sys)
    requires Inv(s) && PrmCan(s) && s.prm.Synced?
    ensures var s' := PrmNext(s); AbsentInv(s'.procs, s'.prm, s'.work, s'.store.cache.table)
  {
    hide BlocksInv, OwnInv, ServedInv, JobsInv, AccessInv, AgingInv, PassInv, LockInv, PrmInv, Resident, Remove,
      Coherent;
    RemoveWellFormed(s.store.cache.table, s.prm.victim);
  }

  lemma PrmKeepsAbsent(s: Sys)
    requires Inv(s) && PrmCan(s)
    ensures var s' := PrmNext(s); AbsentInv(s'.procs, s'.prm, s'.work, s'.store.cache.table)
  {
    hide LockInv, BlocksInv, OwnInv, QueueInv, ServedInv, OwnerInv, AbsentInv, PrmInv, JobsInv, AccessInv, AgingInv,
      PassInv, StoreInv;
    hide PrmNext, PrmAsserts;
    if s.prm.MapTry? && s.store.cache.table.free != [] { PrmMapKeepsAbsent(s); }
    else if s.prm.Synced? { PrmEvictKeepsAbsent(s); }
    else { PrmRestKeepsAbsent(s); }
  }

  /** The other steps of the PRM bind and unbind nothing. */
  lemma PrmRestKeepsAbsent(s: Sys)
    requires PrmCan(s) && AbsentInv(s.procs, s.prm, s.work, s.store.cache.table) && QueueInv(s.prm, s.work)
    requires !(s.prm.MapTry? && s.store.cache.table.free != []) && !s.prm.Synced?
    ensures var s' := PrmNext(s); AbsentInv(s'.procs, s'.prm, s'.work, s'.store.cache.table)
  {
    hide PrmAsserts, Victim, Resident;
  }

  lemma PrmKeepsPrm(s: Sys)
    requires Inv(s) && PrmCan(s)
    ensures var s' := PrmNext(s); PrmInv(s'.prm, s'.store)
  {
    hide LockInv, BlocksInv, OwnInv, QueueInv, ServedInv, OwnerInv, AbsentInv, JobsInv, AccessInv, AgingInv, PassInv,
      Coherent;
    if s.prm.Chosen? { SyncToCoherent(s.store.cache, s.store.flat, None, s.prm.victim); }
  }

  lemma PrmKeepsStore(s: Sys)
    requires Inv(s) && PrmCan(s)
    ensures StoreInv(PrmNext(s))
    ensures var d := PrmNext(s).store.cache;
      d.backing == s.store.cache.backing && d.used == s.store.cache.used && d.pageSize == s.store.cache.pageSize
  {
    hide LockInv, BlocksInv, OwnInv, ServedInv, AbsentInv, JobsInv, AccessInv, AgingInv, PassInv, Coherent, Valid,
      OwnerInv;
    var c, w := s.store.cache, s.store.flat;
    if !s.prm.PrmIdle? {
      ServicePage(s);
      var key := s.work.cmds[s.prm.cmd].key;
      if s.prm.MapTry? && c.table.free != [] { MapCoherent(c, w, key); }
      if s.prm.Chosen? { SyncToCoherent(c, w, None, s.prm.victim); }
      if s.prm.Synced? { UnmapCoherent(c, w, s.prm.victim); }
      if s.prm.Mapped? { LoadCoherent(c, w, key); }
    }
  }

  lemma PrmKeepsInv(s: Sys)
    requires Inv(s) && PrmCan(s)
    ensures Inv(PrmNext(s))
  {
    hide LockInv, BlocksInv, OwnInv, QueueInv, ServedInv, OwnerInv, AbsentInv, PrmInv, JobsInv, AccessInv, AgingInv,
      PassInv, StoreInv;
    hide PrmAsserts, Victim;
    PrmKeepsLocks(s);
    PrmKeepsQueue(s);
    PrmKeepsAbsent(s);
    PrmKeepsPrm(s);
    PrmKeepsStore(s);
    if PrmWrites(s.prm) { PrmExcludesReaders(s, PrmNext(s).store); }
  }

  // ---------------------------------------------------------------- the aging daemon

  lemma DaemonKeepsLocks(s: Sys)
    requires DaemonEnabled(s) && (s.daemon.Passing? ==> s.daemon.i <= |s.store.cache.table.slots|)
    requires LockInv(s.procs, s.prm, s.daemon, s.locks)
    ensures var s' := DaemonNext(s); LockInv(s'.procs, s'.prm, s'.daemon, s'.locks)
  {
  }

  lemma DaemonKeepsAging(s: Sys)
    requires DaemonEnabled(s) && (s.daemon.Passing? ==> s.daemon.i <= |s.store.cache.table.slots|)
    requires AgingInv(s.procs, s.daemon, s.aging) && PassInv(s.daemon, s.aging.before, s.store.cache.table.slots)
    ensures var s' := DaemonNext(s);
      AgingInv(s'.procs, s'.daemon, s'.aging) && PassInv(s'.daemon, s'.aging.before, s'.store.cache.table.slots)
  {
  }

  lemma AgeSlotKeepsStore(s: Sys)
    requires Inv(s) && s.daemon.Passing? && s.daemon.i < |s.store.cache.table.slots|
    ensures var st := s.store.(cache := AgeSlot(s.store.cache, s.daemon.i));
      && Valid(st.cache) && Coherent(st.cache, st.flat, LoadingKey(s))
      && AccessInv(s.procs, st) && AbsentInv(s.procs, s.prm, s.work, st.cache.table) && PrmInv(s.prm, st)
  {
    hide BlocksInv, OwnInv, QueueInv, ServedInv, OwnerInv, JobsInv, AgingInv, PassInv, Coherent;
    var t := s.store.cache.table;
    var u := AgeSlot(s.store.cache, s.daemon.i).table;
    SameBindingsKeep(t, u);
    RetagCoherent(s.store.cache, s.store.flat, LoadingKey(s), u);
    var st := s.store.(cache := AgeSlot(s.store.cache, s.daemon.i));
    forall p | 0 <= p < |s.procs| ensures AccessOk(st, p, s.procs[p].pc) {
      assert AccessOk(s.store, p, s.procs[p].pc);
      UndisturbedAccess(s.store, st, p, s.procs[p].pc);
    }
  }

  lemma DaemonKeepsInv(s: Sys)
    requires Inv(s) && DaemonEnabled(s) && (s.daemon.Passing? ==> s.daemon.i <= |s.store.cache.table.slots|)
    ensures Inv(DaemonNext(s))
  {
    hide LockInv, BlocksInv, OwnInv, QueueInv, ServedInv, OwnerInv, AbsentInv, PrmInv, JobsInv, AccessInv, AgingInv,
      PassInv;
    hide Coherent, Valid;
    DaemonKeepsLocks(s);
    DaemonKeepsAging(s);
    if s.daemon.Passing? && s.daemon.i < |s.store.cache.table.slots| { AgeSlotKeepsStore(s); }
  }

  // ---------------------------------------------------------------- starting work

  /** An idle or dead process takes part in nothing, so it can start on anything. */
  predicate Starts(s: Sys, pid: nat, s': Sys) {
    && pid < |s.procs| == |s'.procs|
    && (s.procs[pid].pc.Idle? || s.procs[pid].pc.Dead?)
    && s'.procs == s.procs[pid := s'.procs[pid]]
    && s'.procs[pid].pc in {Mapping(0), Unmapping(0)} + (if s'.procs[pid].pc.Entering? then {s'.procs[pid].pc} else {})
    && SameMemory(s.store, s'.store)
    && s'.prm == s.prm && s'.daemon == s.daemon && s'.work == s.work && s'.aging == s.aging
      && s'.blockSize == s.blockSize
  }

  lemma StartKeepsWork(s: Sys, pid: nat, s': Sys)
    requires Starts(s, pid, s')
    requires OwnerInv(s.procs, s.work) && AgingInv(s.procs, s.daemon, s.aging)
    requires JobsInv(s.blockSize, s.procs, s.store.cache.pageSize)
    requires s'.procs[pid].pc.Entering? ==> InPage(s'.procs[pid].pc.job, s.blockSize, s.store.cache.pageSize)
    requires AbsentInv(s.procs, s.prm, s.work, s.store.cache.table)
    requires AccessInv(s.procs, s.store)
    ensures OwnerInv(s'.procs, s'.work) && AgingInv(s'.procs, s'.daemon, s'.aging)
    ensures JobsInv(s'.blockSize, s'.procs, s'.store.cache.pageSize)
    ensures AbsentInv(s'.procs, s'.prm, s'.work, s'.store.cache.table)
    ensures AccessInv(s'.procs, s'.store)
  {
    hide Resident;
    forall p | 0 <= p < |s'.procs| ensures AccessOk(s'.store, p, s'.procs[p].pc) {
      assert AccessOk(s.store, p, s.procs[p].pc);
      SameMemoryIsUndisturbing(s.store, s'.store, p);
      UndisturbedAccess(s.store, s'.store, p, s.procs[p].pc);
    }
  }

  /** Neither the allocation bits nor an idle or dead process matter to the store and the PRM. */
  lemma StartKeepsStore(s: Sys, pid: nat, s': Sys)
    requires Starts(s, pid, s') && StoreInv(s) && PrmInv(s.prm, s.store)
    requires s'.store == s.store.(cache := s.store.cache.(used := s'.store.cache.used))
    requires |s'.store.cache.used| == |s.store.cache.used|
    requires forall k :: k in s.store.cache.backing ==> s'.store.cache.used[s.store.cache.backing[k]]
    ensures StoreInv(s') && PrmInv(s'.prm, s'.store)
  {
    hide Coherent, Valid;
    UsedCoherent(s.store.cache, s.store.flat, LoadingKey(s), s'.store.cache.used);
  }

  lemma BackingInRange(s: Sys)
    requires StoreInv(s)
    ensures forall k :: k in s.store.cache.backing ==>
      0 <= s.store.cache.backing[k] < |s.store.cache.used| && s.store.cache.used[s.store.cache.backing[k]]
  {
  }

  /** A block of clear pages is nobody's, so it can become the block of a dead slot. */
  lemma NewBlock(blockSize: nat, procs: seq<Proc>, used: seq<bool>, pid: nat, start: nat)
    requires BlocksInv(blockSize, procs, used) && pid < |procs| && procs[pid].pc.Dead?
    requires ClearRange(used, start, blockSize)
    ensures BlocksInv(blockSize, procs[pid := Proc(Mapping(0), start)], SetRange(used, start, blockSize, true))
  {
    forall q | 0 <= q < |procs| && !procs[q].pc.Dead?
      ensures procs[q].start + blockSize <= start || start + blockSize <= procs[q].start
    {
      assert blockSize > 0 ==> !used[start] && used[procs[q].start];
    }
  }

  lemma NewOwner(blockSize: nat, procs: seq<Proc>, backing: map<PageKey, int>, pid: nat, start: nat)
    requires OwnInv(blockSize, procs, backing) && pid < |procs| && procs[pid].pc.Dead?
    ensures OwnInv(blockSize, procs[pid := Proc(Mapping(0), start)], backing)
  {
  }

  lemma NewLocks(procs: seq<Proc>, prm: Prm, daemon: Daemon, l: Locks, pid: nat, start: nat)
    requires LockInv(procs, prm, daemon, l) && pid < |procs| && procs[pid].pc.Dead? && l.container == None
    ensures LockInv(procs[pid := Proc(Mapping(0), start)], prm, daemon, l.(container := Some(pid)))
  {
  }

  lemma StartKeepsInv(s: Sys, step: Step)
    requires Inv(s) && Enabled(s, step) && (step.Create? || step.Destroy? || step.Begin?)
    ensures Inv(Next(s, step).value)
  {
    hide LockInv, BlocksInv, OwnInv, QueueInv, ServedInv, OwnerInv, AbsentInv, PrmInv, JobsInv, AccessInv, AgingInv,
      PassInv, StoreInv;
    var s' := Next(s, step).value;
    BackingInRange(s);
    StartKeepsWork(s, step.pid, s');
    StartKeepsStore(s, step.pid, s');
    if step.Create? {
      NewBlock(s.blockSize, s.procs, s.store.cache.used, step.pid, step.start);
      NewOwner(s.blockSize, s.procs, s.store.cache.backing, step.pid, step.start);
      NewLocks(s.procs, s.prm, s.daemon, s.locks, step.pid, step.start);
    } else {
      BlocksStay(s.blockSize, s.procs, s.store.cache.used, step.pid, s'.procs[step.pid].pc);
      OwnershipStays(s.blockSize, s.procs, s.store.cache.backing, step.pid, s'.procs[step.pid].pc);
      IdleTakesLocks(s, step);
    }
  }

  lemma IdleTakesLocks(s: Sys, step: Step)
    requires LockInv(s.procs, s.prm, s.daemon, s.locks) && Enabled(s, step) && (step.Destroy? || step.Begin?)
    ensures var s' := Next(s, step).value; LockInv(s'.procs, s'.prm, s'.daemon, s'.locks)
  {
    hide ProcNext, PrmNext, DaemonNext, ProcAsserts, PrmAsserts, ClearRange, PrmEnabled, DaemonEnabled;
  }

  // ---------------------------------------------------------------- no assertion fails

  lemma LifeAssertsHold(s: Sys, pid: nat)
    requires Inv(s) && pid < |s.procs| && InLife(s.procs[pid].pc)
    ensures ProcAsserts(s, pid)
  {
    hide LockInv, QueueInv, ServedInv, OwnerInv, AbsentInv, PrmInv, JobsInv, AccessInv, AgingInv, PassInv, Coherent;
    var pc := s.procs[pid].pc;
    if pc.MappingLocked? {
      NextPageIsFree(s, pid);
      NotAllocatedNotResident(s.store.cache, PageKey(pid, pc.next));
    }
    if pc.UnmappingLocked? { assert Owns(pc, s.blockSize, PageKey(pid, pc.next).page); }
  }

  lemma NotAllocatedNotResident(c: Cache, key: PageKey)
    requires Valid(c) && key !in c.backing
    ensures !Resident(c.table, key)
  {
  }

  lemma ProcAssertsHold(s: Sys, pid: nat)
    requires Inv(s) && pid < |s.procs|
    ensures ProcAsserts(s, pid)
  {
    hide LockInv, BlocksInv, OwnInv, QueueInv, ServedInv, AbsentInv, PrmInv, JobsInv, AgingInv, PassInv, StoreInv,
      AccessOk;
    var pc := s.procs[pid].pc;
    if InLife(pc) { hide ProcAsserts; LifeAssertsHold(s, pid); }
    else if pc.Copying? { FrameAgrees(s, pid); CopyHasFlat(s, pid); }
    else if pc.Pinned? || pc.Marked? {
      assert AccessOk(s.store, pid, pc);
      PinnedIsResident(s.store, pid, pc);
    }
  }

  lemma CopyHasFlat(s: Sys, pid: nat)
    requires AccessInv(s.procs, s.store) && pid < |s.procs| && s.procs[pid].pc.Copying?
    ensures KeyOf(pid, s.procs[pid].pc.job) in s.store.flat
  {
    assert AccessOk(s.store, pid, s.procs[pid].pc);
  }

  lemma PinnedIsResident(s: Store, pid: nat, pc: Pc)
    requires AccessOk(s, pid, pc) && (pc.Pinned? || pc.Marked?)
    ensures Resident(s.cache.table, KeyOf(pid, pc.job))
  {
  }

  lemma PrmAssertsHold(s: Sys)
    requires Inv(s)
    ensures PrmAsserts(s)
  {
    hide LockInv, BlocksInv, ServedInv, AgingInv, PassInv, Coherent, AccessInv, Resident;
    if !s.prm.PrmIdle? { ServicePage(s); }
  }

  lemma AssertsHold(s: Sys, step: Step)
    requires Inv(s) && Enabled(s, step)
    ensures Asserts(s, step)
  {
    hide LockInv, BlocksInv, OwnInv, QueueInv, ServedInv, OwnerInv, AbsentInv, PrmInv, JobsInv, AccessInv, AgingInv,
      StoreInv;
    hide ProcAsserts, PrmAsserts, ProcEnabled, PrmEnabled;
    if step.Advance? { ProcAssertsHold(s, step.pid); }
    if step.PrmStep? { PrmAssertsHold(s); }
  }

  // ---------------------------------------------------------------- every run

  /** No step trips an assertion of the source, and every step keeps the invariant. */
  lemma StepSafe(s: Sys, step: Step)
    requires Inv(s) && Enabled(s, step)
    ensures Next(s, step).Some? && Inv(Next(s, step).value)
  {
    hide Inv, ProcNext, PrmNext, DaemonNext, ProcAsserts, PrmAsserts, PrmEnabled, DaemonEnabled, ProcEnabled;
    AssertsHold(s, step);
    match step
    case Advance(pid) => ProcKeepsInv(s, pid);
    case PrmStep => PrmKeepsInv(s);
    case DaemonStep => DaemonKeepsInv(s);
    case _ => StartKeepsInv(s, step);
  }

  /** The system as its initialisers leave it: every slot junk, every lock free, the disk clear, nothing counted. */
  ghost predicate Initial(s: Sys) {
    && (forall p :: 0 <= p < |s.procs| ==> s.procs[p].pc.Dead?)
    && s.prm.PrmIdle? && s.daemon.DaemonIdle?
    && s.locks == Locks(None, {}, None, None)
    && s.work == Work([], map[], 0, [])
    && s.store.flat == map[] && s.store.cache.backing == map[] && Valid(s.store.cache)
    && (forall d :: 0 <= d < |s.store.cache.used| ==> !s.store.cache.used[d])
    && s.store.cache.stats.(agingFreq := 0) == Stats(0, 0, 0, 0, 0, 0)
    && s.aging.started == 0 && s.aging.finished == 0 && !s.aging.shouldUpdate
  }

  lemma InitialInv(s: Sys)
    requires Initial(s)
    ensures Inv(s)
  {
  }

  /** `run` is a sequence of enabled steps from `s`, up to the first that trips an assertion. */
  ghost predicate IsRun(s: Sys, run: seq<Step>)
    decreases |run|
  {
    run == [] || (Enabled(s, run[0]) && (Next(s, run[0]).Some? ==> IsRun(Next(s, run[0]).value, run[1..])))
  }

  /** Where a run ends; None if it tripped an assertion. */
  ghost function After(s: Sys, run: seq<Step>): Option<Sys>
    requires IsRun(s, run)
    decreases |run|
  {
    if run == [] then Some(s)
    else if Next(s, run[0]).None? then None
    else After(Next(s, run[0]).value, run[1..])
  }

  /** Safety over every run of the concurrent system: no assertion fails and the invariant holds at the end. */
  lemma {:induction false} RunSafe(s: Sys, run: seq<Step>)
    requires Inv(s) && IsRun(s, run)
    ensures After(s, run).Some? && Inv(After(s, run).value)
    decreases |run|
  {
    hide Inv, Next, Enabled;
    if run != [] {
      StepSafe(s, run[0]);
      RunSafe(Next(s, run[0]).value, run[1..]);
    }
  }

  /** A state that some run from an initial state reaches. */
  ghost predicate Reachable(s: Sys) {
    exists s0, run :: Initial(s0) && IsRun(s0, run) && After(s0, run) == Some(s)
  }

  lemma ReachableInv(s: Sys)
    requires Reachable(s)
    ensures Inv(s)
  {
    hide Inv, Initial, After, IsRun;
    var s0, run :| Initial(s0) && IsRun(s0, run) && After(s0, run) == Some(s);
    InitialInv(s0);
    RunSafe(s0, run);
  }
}
