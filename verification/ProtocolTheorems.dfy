/** What the invariant of the concurrent system means for its users: safe accesses, right bytes, fair service. */
module ProtocolTheorems {
  import opened VmTypes
  import opened PageTable
  import opened Cache
  import opened Protocol
  import opened ProtocolInv
  import opened ProtocolProc
  import opened ProtocolSystem

  // ---------------------------------------------------------------- access safety

  /** From the residency test that succeeded to the end of the copy. */
  predicate Accessing(pc: Pc) {
    pc.Pinned? || pc.Marked? || pc.Copying?
  }

  /** While anyone holds the read lock, no step changes which page is in which frame. */
  lemma ReadLockFreezesBindings(s: Sys, step: Step)
    requires Inv(s) && Enabled(s, step) && s.locks.readers != {}
    ensures Next(s, step).Some? && SameBindings(s.store.cache.table, Next(s, step).value.store.cache.table)
  {
    hide BlocksInv, OwnInv, QueueInv, ServedInv, OwnerInv, AbsentInv, PrmInv, JobsInv, AccessInv, AgingInv, PassInv,
      Coherent, Valid;
    hide ProcNext, PrmNext, DaemonNext, ProcAsserts, PrmAsserts, ProcEnabled, PrmEnabled, DaemonEnabled, SameBindings,
      Inv;
    StepSafe(s, step);
    match step
    case Advance(pid) => ProcFreezes(s, pid);
    case PrmStep => PrmFreezes(s);
    case DaemonStep => DaemonFreezes(s);
    case _ => SameIsSame(s.store.cache.table);
  }

  lemma SameIsSame(t: Table)
    ensures SameBindings(t, t)
  {
  }

  lemma ProcFreezes(s: Sys, pid: nat)
    requires Inv(s) && CanStep(s, pid) && s.locks.readers != {}
    ensures SameBindings(s.store.cache.table, ProcNext(s, pid).store.cache.table)
  {
    hide BlocksInv, OwnInv, QueueInv, ServedInv, OwnerInv, AbsentInv, PrmInv, JobsInv, AccessInv, AgingInv, PassInv,
      Coherent, Valid;
    if InAccess(s.procs[pid].pc) { hide ProcAsserts, LockInv; }
    else if InPin(s.procs[pid].pc) { PinMoves(s, pid); }
  }

  lemma PrmFreezes(s: Sys)
    requires Inv(s) && PrmCan(s) && s.locks.readers != {}
    ensures SameBindings(s.store.cache.table, PrmNext(s).store.cache.table)
  {
    hide BlocksInv, OwnInv, QueueInv, ServedInv, OwnerInv, AbsentInv, PrmInv, JobsInv, AccessInv, AgingInv, PassInv,
      Coherent, Valid;
    hide PrmAsserts;
  }

  lemma DaemonFreezes(s: Sys)
    requires DaemonEnabled(s) && (s.daemon.Passing? ==> s.daemon.i <= |s.store.cache.table.slots|)
    ensures SameBindings(s.store.cache.table, DaemonNext(s).store.cache.table)
  {
  }

  /** In every state of the run, process `pid` is between its residency test and the end of its copy. */
  ghost predicate AccessingThroughout(s: Sys, run: seq<Step>, pid: nat)
    requires IsRun(s, run)
    decreases |run|
  {
    && pid < |s.procs| && Accessing(s.procs[pid].pc)
    && (run != [] && Next(s, run[0]).Some? ==> AccessingThroughout(Next(s, run[0]).value, run[1..], pid))
  }

  /** Whatever the other threads do meanwhile, the page stays bound to its frame. */
  lemma {:induction false} FrameStable(s: Sys, run: seq<Step>, pid: nat)
    requires Inv(s) && IsRun(s, run) && AccessingThroughout(s, run, pid)
    ensures After(s, run).Some?
    ensures forall k :: FrameOf(After(s, run).value.store.cache.table, k) == FrameOf(s.store.cache.table, k)
    ensures SameBindings(s.store.cache.table, After(s, run).value.store.cache.table)
    decreases |run|
  {
    hide Inv, Next, Enabled;
    if run != [] {
      StepSafe(s, run[0]);
      var s' := Next(s, run[0]).value;
      AccessHoldsRead(s, pid);
      ReadLockFreezesBindings(s, run[0]);
      TableOk(s);
      SameBindingsKeep(s.store.cache.table, s'.store.cache.table);
      FrameStable(s', run[1..], pid);
    }
  }

  lemma AccessHoldsRead(s: Sys, pid: nat)
    requires Inv(s) && pid < |s.procs| && Accessing(s.procs[pid].pc)
    ensures s.locks.readers != {}
  {
    assert ProcT(pid) in s.locks.readers;
  }

  lemma TableOk(s: Sys)
    requires Inv(s)
    ensures WellFormed(s.store.cache.table)
  {
  }

  lemma CopyHoldsFrame(s: Sys, p: nat)
    requires AccessInv(s.procs, s.store) && p < |s.procs| && s.procs[p].pc.Copying?
    ensures HeldAt(s.store.cache.table, KeyOf(p, s.procs[p].pc.job), s.procs[p].pc.frame)
  {
    assert AccessOk(s.store, p, s.procs[p].pc);
  }

  /** Two copies in progress work on different frames, so on disjoint bytes of the memory array. */
  lemma CopiesDisjoint(s: Sys, p: nat, q: nat, i: nat, j: nat)
    requires Reachable(s) && p < |s.procs| && q < |s.procs| && p != q
    requires s.procs[p].pc.Copying? && s.procs[q].pc.Copying?
    requires i < s.store.cache.pageSize && j < s.store.cache.pageSize
    ensures s.procs[p].pc.frame != s.procs[q].pc.frame
    ensures s.procs[p].pc.frame * s.store.cache.pageSize + i != s.procs[q].pc.frame * s.store.cache.pageSize + j
  {
    hide Reachable, LockInv, BlocksInv, OwnInv, QueueInv, ServedInv, OwnerInv, AbsentInv, PrmInv, JobsInv, AccessInv,
      AgingInv, PassInv, StoreInv;
    ReachableInv(s);
    CopyHoldsFrame(s, p);
    CopyHoldsFrame(s, q);
    FramesApart(s.procs[p].pc.frame, s.procs[q].pc.frame, s.store.cache.pageSize, i, j);
  }

  lemma FramesApart(f: nat, g: nat, size: nat, i: nat, j: nat)
    requires f != g && i < size && j < size
    ensures f * size + i != g * size + j
  {
    if f < g {
      assert (f + 1) * size <= g * size;
    } else {
      assert (g + 1) * size <= f * size;
    }
  }

  // ---------------------------------------------------------------- the bytes a process sees

  /** Page `key` has had `data` written at `off`. */
  ghost predicate HasBytes(w: Flat, key: PageKey, off: nat, data: seq<Byte>) {
    key in w && forall j :: off <= j < off + |data| ==> j in w[key] && w[key][j] == data[j - off]
  }

  predicate Finished(pc: Pc) {
    pc.Copying? && pc.i == pc.job.Count()
  }

  lemma FinishedRead(s: Sys, pid: nat)
    requires Inv(s) && pid < |s.procs| && Finished(s.procs[pid].pc) && s.procs[pid].pc.job.ReadJob?
    ensures var Copying(job, _, _, buf) := s.procs[pid].pc;
      && |buf| == job.n && KeyOf(pid, job) in s.store.flat
      && forall j :: 0 <= j < job.n && job.off + j in s.store.flat[KeyOf(pid, job)] ==>
           buf[j] == s.store.flat[KeyOf(pid, job)][job.off + j]
  {
    hide LockInv, BlocksInv, OwnInv, QueueInv, ServedInv, OwnerInv, AbsentInv, PrmInv, JobsInv, AgingInv, PassInv,
      Coherent, Valid;
    assert AccessOk(s.store, pid, s.procs[pid].pc);
  }

  lemma FinishedWrite(s: Sys, pid: nat)
    requires Inv(s) && pid < |s.procs| && Finished(s.procs[pid].pc) && s.procs[pid].pc.job.WriteJob?
    ensures var job := s.procs[pid].pc.job; HasBytes(s.store.flat, KeyOf(pid, job), job.off, job.data)
  {
    hide LockInv, BlocksInv, OwnInv, QueueInv, ServedInv, OwnerInv, AbsentInv, PrmInv, JobsInv, AgingInv, PassInv,
      Coherent, Valid;
    assert AccessOk(s.store, pid, s.procs[pid].pc);
  }

  /**
   In every reachable state a finished read has in its buffer, for every byte written since the page was
   allocated, the last value written; and a finished write has recorded all its bytes.
   */
  lemma AccessIsRight(s: Sys, pid: nat)
    requires Reachable(s) && pid < |s.procs| && Finished(s.procs[pid].pc)
    ensures var Copying(job, _, _, buf) := s.procs[pid].pc;
      && KeyOf(pid, job) in s.store.flat
      && (job.WriteJob? ==> HasBytes(s.store.flat, KeyOf(pid, job), job.off, job.data))
      && (job.ReadJob? ==>
            |buf| == job.n && forall j :: 0 <= j < job.n && job.off + j in s.store.flat[KeyOf(pid, job)] ==>
              buf[j] == s.store.flat[KeyOf(pid, job)][job.off + j])
  {
    hide Inv, Reachable;
    ReachableInv(s);
    if s.procs[pid].pc.job.ReadJob? { FinishedRead(s, pid); } else { FinishedWrite(s, pid); }
  }

  /** The step at which process `pid` itself changes its flat memory. */
  predicate ChangesFlat(s: Sys, step: Step, pid: nat) {
    && step == Advance(pid) && pid < |s.procs|
    && var pc := s.procs[pid].pc;
       pc.MappingLocked? || pc.UnmappingLocked? || (pc.Copying? && pc.job.WriteJob?)
  }

  /** No other thread's step changes the flat memory of a process. */
  lemma FlatIsPrivate(s: Sys, step: Step, pid: nat)
    requires Inv(s) && Enabled(s, step) && !ChangesFlat(s, step, pid)
    ensures Next(s, step).Some?
    ensures var w, w' := s.store.flat, Next(s, step).value.store.flat;
      forall k: PageKey :: k.pid == pid ==> (k in w <==> k in w') && (k in w ==> w'[k] == w[k])
  {
    hide Inv, PrmAsserts, PrmEnabled, DaemonEnabled, AllocPage, FreePage, Touch, PatchFrame, SyncTo, MapPage, Load,
      Unmap, Victim, ProcAsserts;
    StepSafe(s, step);
  }

  /** The run contains no write, allocation or free of a page by process `pid`. */
  ghost predicate NoOwnChange(s: Sys, run: seq<Step>, pid: nat)
    requires IsRun(s, run)
    decreases |run|
  {
    run != [] ==>
      && !ChangesFlat(s, run[0], pid)
      && (Next(s, run[0]).Some? ==> NoOwnChange(Next(s, run[0]).value, run[1..], pid))
  }

  lemma {:induction false} RunKeepsBytes(s: Sys, run: seq<Step>, pid: nat, page: nat, off: nat, data: seq<Byte>)
    requires Inv(s) && IsRun(s, run) && NoOwnChange(s, run, pid)
    requires HasBytes(s.store.flat, PageKey(pid, page), off, data)
    ensures After(s, run).Some? && Inv(After(s, run).value)
    ensures HasBytes(After(s, run).value.store.flat, PageKey(pid, page), off, data)
    decreases |run|
  {
    hide Inv, Next, Enabled;
    if run != [] {
      StepSafe(s, run[0]);
      FlatIsPrivate(s, run[0], pid);
      RunKeepsBytes(Next(s, run[0]).value, run[1..], pid, page, off, data);
    }
  }

  /**
   What a process writes it reads back, over every run in between in which it does not itself write,
   allocate or free: whatever faults, evictions, aging passes and accesses of other processes intervene.
   */
  lemma WriteThenRead(s: Sys, s1: Sys, run: seq<Step>, pid: nat)
    requires Reachable(s) && pid < |s.procs| && Finished(s.procs[pid].pc) && s.procs[pid].pc.job.WriteJob?
    requires Next(s, Advance(pid)) == Some(s1)
    requires IsRun(s1, run) && NoOwnChange(s1, run, pid)
    ensures After(s1, run).Some?
    ensures var wrote := s.procs[pid].pc.job;
      var s' := After(s1, run).value;
      pid < |s'.procs| && Finished(s'.procs[pid].pc)
      && s'.procs[pid].pc.job == ReadJob(wrote.page, wrote.off, |wrote.data|)
      ==> s'.procs[pid].pc.buf == wrote.data
  {
    hide Inv, IsRun, NoOwnChange, Reachable, Next;
    ReachableInv(s);
    var wrote := s.procs[pid].pc.job;
    StepSafe(s, Advance(pid));
    FinishedWrite(s, pid);
    LeaveKeepsFlat(s, pid);
    RunKeepsBytes(s1, run, pid, wrote.page, wrote.off, wrote.data);
    var s' := After(s1, run).value;
    if pid < |s'.procs| && Finished(s'.procs[pid].pc)
      && s'.procs[pid].pc.job == ReadJob(wrote.page, wrote.off, |wrote.data|) {
      FinishedRead(s', pid);
    }
  }

  lemma LeaveKeepsFlat(s: Sys, pid: nat)
    requires pid < |s.procs| && Finished(s.procs[pid].pc) && Next(s, Advance(pid)).Some?
    ensures Next(s, Advance(pid)).value.store == s.store
  {
  }

  // ---------------------------------------------------------------- commands

  /**
   Every command queued or in service is allocated, not done, and names an allocated page that is absent
   until the PRM maps it; no two name the same page; a command is served once; and one that has been
   issued is queued, in service or served.
   */
  lemma CommandsWellUsed(s: Sys)
    requires Reachable(s)
    ensures forall c :: c in s.work.queue || InService(s.prm, c) ==>
      && c in s.work.cmds && !s.work.cmds[c].done
      && s.work.cmds[c].key in s.store.cache.backing
      && (!PastMap(s.prm, c) ==> !Resident(s.store.cache.table, s.work.cmds[c].key))
    ensures forall c, d :: c in s.work.cmds && d in s.work.cmds && s.work.cmds[c].key == s.work.cmds[d].key ==> c == d
    ensures Distinct(s.work.served) && forall c :: c in s.work.served ==> c !in s.work.queue && !InService(s.prm, c)
    ensures forall c :: 0 <= c < s.work.nextCmd ==> c in s.work.served || c in s.work.queue || InService(s.prm, c)
  {
    hide Reachable, LockInv, BlocksInv, OwnInv, QueueInv, ServedInv, OwnerInv, AbsentInv, PrmInv, JobsInv, AccessInv,
      AgingInv, PassInv, StoreInv, Resident;
    ReachableInv(s);
    forall c | c in s.work.queue || InService(s.prm, c)
      ensures c in s.work.cmds && !s.work.cmds[c].done && s.work.cmds[c].key in s.store.cache.backing
      ensures !PastMap(s.prm, c) ==> !Resident(s.store.cache.table, s.work.cmds[c].key)
    {
      OutstandingCommand(s, c);
    }
    forall c, d | c in s.work.cmds && d in s.work.cmds && s.work.cmds[c].key == s.work.cmds[d].key ensures c == d {
      CommandsDistinct(s, c, d);
    }
    ServedOnce(s);
  }

  lemma OutstandingCommand(s: Sys, c: nat)
    requires QueueInv(s.prm, s.work) && OwnerInv(s.procs, s.work)
      && AbsentInv(s.procs, s.prm, s.work, s.store.cache.table)
    requires OwnInv(s.blockSize, s.procs, s.store.cache.backing)
      && JobsInv(s.blockSize, s.procs, s.store.cache.pageSize)
    requires c in s.work.queue || InService(s.prm, c)
    ensures c in s.work.cmds && !s.work.cmds[c].done && s.work.cmds[c].key in s.store.cache.backing
    ensures !PastMap(s.prm, c) ==> !Resident(s.store.cache.table, s.work.cmds[c].key)
  {
    hide Resident;
    var key := s.work.cmds[c].key;
    assert HasCmd(s.procs[key.pid].pc, c);
    assert Owns(s.procs[key.pid].pc, s.blockSize, key.page);
  }

  lemma ServedOnce(s: Sys)
    requires QueueInv(s.prm, s.work) && ServedInv(s.prm, s.work)
    ensures Distinct(s.work.served) && forall c :: c in s.work.served ==> c !in s.work.queue && !InService(s.prm, c)
    ensures forall c :: 0 <= c < s.work.nextCmd ==> c in s.work.served || c in s.work.queue || InService(s.prm, c)
  {
  }

  /** The eviction loop runs at most once: when the PRM retries after an eviction there is a free frame. */
  lemma RetrySucceeds(s: Sys)
    requires Reachable(s) && s.prm.MapTry? && s.prm.tries > 0
    ensures PrmAsserts(s) && PrmNext(s).prm == Mapped(s.prm.cmd)
  {
    ReachableInv(s);
    hide Reachable, LockInv, BlocksInv, OwnInv, QueueInv, ServedInv, OwnerInv, AbsentInv, JobsInv, AccessInv, AgingInv,
      PassInv, StoreInv;
    hide PrmAsserts;
    PrmAssertsHold(s);
  }

  // ---------------------------------------------------------------- aging passes

  /** A request takes the number of the next pass; passes with that number or a later one start after it. */
  lemma TicketIsNextPass(s: Sys, pid: nat)
    requires Reachable(s) && CanStep(s, pid) && s.procs[pid].pc.Requesting?
    ensures ProcNext(s, pid).procs[pid].pc == Awaiting(s.aging.started) && s.aging.started == s.aging.finished
  {
    hide Reachable, LockInv, BlocksInv, OwnInv, QueueInv, ServedInv, OwnerInv, AbsentInv, PrmInv, JobsInv, AccessInv,
      AgingInv, PassInv, StoreInv, ProcAsserts;
    ReachableInv(s);
    NoPassUnderWay(s);
  }

  /** The daemon's mutex is free only between passes. */
  lemma NoPassUnderWay(s: Sys)
    requires LockInv(s.procs, s.prm, s.daemon, s.locks) && AgingInv(s.procs, s.daemon, s.aging)
    requires s.locks.daemonMutex == None
    ensures s.aging.started == s.aging.finished
  {
  }

  /** A requester that may return has seen a whole pass that started after its request. */
  lemma RequesterSeesPass(s: Sys, pid: nat)
    requires Reachable(s) && pid < |s.procs| && s.procs[pid].pc.Awaiting? && ProcEnabled(s, pid)
    ensures s.procs[pid].pc.ticket < s.aging.finished
  {
    hide Reachable, LockInv, BlocksInv, OwnInv, QueueInv, ServedInv, OwnerInv, AbsentInv, PrmInv, JobsInv, AccessInv,
      AgingInv, PassInv, StoreInv;
    ReachableInv(s);
    DoneMeansSeen(s, pid);
  }

  lemma DoneMeansSeen(s: Sys, pid: nat)
    requires AgingInv(s.procs, s.daemon, s.aging) && pid < |s.procs| && s.procs[pid].pc.Awaiting?
      && s.aging.doneUpdating
    ensures s.procs[pid].pc.ticket < s.aging.finished
  {
  }

  /** At the end of a pass every entry has been aged exactly once since the pass began. */
  lemma PassAgesEach(s: Sys)
    requires Reachable(s) && s.daemon.Passed?
    ensures var now := s.store.cache.table.slots;
      |s.aging.before| == |now| && forall i :: 0 <= i < |now| ==> AgedOnce(s.aging.before[i], now[i])
  {
    hide Reachable, LockInv, BlocksInv, OwnInv, QueueInv, ServedInv, OwnerInv, AbsentInv, PrmInv, JobsInv, AccessInv,
      AgingInv, StoreInv;
    ReachableInv(s);
  }
}
