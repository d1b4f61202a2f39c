/**
 The concurrent system cannot lock up. In every reachable state with work in hand some step that starts no
 new work is enabled; and every fault command and every aging request can be finished by such steps alone.
 */
module ProtocolProgress {
  import opened VmTypes
  import opened PageTable
  import opened Cache
  import opened Protocol
  import opened ProtocolInv
  import opened ProtocolProc
  import opened ProtocolSystem

  /** Steps of threads that are already at work, as against new processes and new accesses. */
  predicate Continues(step: Step) {
    step.Advance? || step.PrmStep? || step.DaemonStep?
  }

  ghost predicate Busy(s: Sys) {
    || (exists p :: 0 <= p < |s.procs| && !s.procs[p].pc.Dead? && !s.procs[p].pc.Idle?)
    || !s.prm.PrmIdle? || s.work.queue != [] || !s.daemon.DaemonIdle?
  }

  // ---------------------------------------------------------------- someone can always move

  /** A thread that holds the MMU's lock can take its next step: it waits for nothing while it holds it. */
  lemma HolderCanStep(s: Sys) returns (step: Step)
    requires LockInv(s.procs, s.prm, s.daemon, s.locks) && !CanWrite(s.locks)
    ensures Continues(step) && Enabled(s, step)
    ensures s.locks.writer.Some? ==> (step.Advance? || step.PrmStep?)
    ensures step.Advance? ==> HoldsRead(s.procs[step.pid].pc) || HoldsWrite(s.procs[step.pid].pc)
    ensures step.PrmStep? ==> PrmWrites(s.prm)
    ensures step.DaemonStep? ==> DaemonReads(s.daemon)
  {
    if s.locks.writer.Some? {
      if s.locks.writer == Some(PrmT) { return PrmStep; }
      return Advance(s.locks.writer.value.pid);
    }
    var t :| t in s.locks.readers;
    step := if t.DaemonT? then DaemonStep else Advance(t.pid);
  }

  /** With the MMU's lock free, PRM and daemon at rest and no command queued, no busy process waits in vain. */
  lemma ProcessCanStep(s: Sys, p: nat)
    requires Inv(s) && CanWrite(s.locks) && s.prm.PrmIdle? && s.work.queue == [] && s.daemon.DaemonIdle?
    requires p < |s.procs| && !s.procs[p].pc.Dead? && !s.procs[p].pc.Idle?
    ensures ProcEnabled(s, p) || DaemonEnabled(s)
  {
    hide BlocksInv, OwnInv, ServedInv, AbsentInv, PrmInv, JobsInv, AccessInv, PassInv, StoreInv;
  }

  /** Deadlock freedom. */
  lemma NoDeadlock(s: Sys)
    requires Reachable(s) && Busy(s)
    ensures exists step :: Continues(step) && Enabled(s, step)
  {
    hide Reachable, BlocksInv, OwnInv, QueueInv, ServedInv, OwnerInv, AbsentInv, PrmInv, JobsInv, AccessInv, AgingInv,
      PassInv, StoreInv;
    ReachableInv(s);
    if !CanWrite(s.locks) {
      var step := HolderCanStep(s);
    } else if !s.daemon.DaemonIdle? {
      assert Enabled(s, DaemonStep);
    } else if !s.prm.PrmIdle? || s.work.queue != [] {
      assert Enabled(s, PrmStep);
    } else {
      var p :| 0 <= p < |s.procs| && !s.procs[p].pc.Dead? && !s.procs[p].pc.Idle?;
      ProcessCanStep(s, p);
      assert Enabled(s, Advance(p)) || Enabled(s, DaemonStep);
    }
  }

  // ---------------------------------------------------------------- how much is left to do under the lock

  /** Steps until the thread of a process gives up the MMU's lock, at most. */
  function HoldWork(pc: Pc): nat {
    match pc
    case Checking(job) => job.Count() + 5
    case Rechecking(job) => job.Count() + 5
    case Pinned(job) => job.Count() + 4
    case Marked(job) => job.Count() + 3
    case Copying(job, _, i, _) => (if i < job.Count() then job.Count() - i else 0) + 1
    case Missing(_) => 1
    case MappingLocked(_) => 1
    case UnmappingLocked(_) => 1
    case _ => 0
  }

  function ProcsWork(procs: seq<Proc>): nat {
    if procs == [] then 0 else HoldWork(procs[0].pc) + ProcsWork(procs[1..])
  }

  function DaemonWork(s: Sys): nat {
    match s.daemon
    case Passing(i) => (if i < |s.store.cache.table.slots| then |s.store.cache.table.slots| - i else 0) + 2
    case Passed => 1
    case _ => 0
  }

  lemma {:induction false} ProcsWorkUpdate(procs: seq<Proc>, p: nat, x: Proc)
    requires p < |procs|
    ensures ProcsWork(procs[p := x]) + HoldWork(procs[p].pc) == ProcsWork(procs) + HoldWork(x.pc)
  {
    if p == 0 {
      assert procs[p := x][1..] == procs[1..];
    } else {
      assert procs[p := x][1..] == procs[1..][p - 1 := x];
      ProcsWorkUpdate(procs[1..], p - 1, x);
    }
  }

  /** A step of a process under the lock uses up some of its work and starts nothing. */
  lemma HolderUsesWork(s: Sys, pid: nat)
    requires CanStep(s, pid) && (HoldsRead(s.procs[pid].pc) || HoldsWrite(s.procs[pid].pc))
    ensures var s' := ProcNext(s, pid);
      && HoldWork(s'.procs[pid].pc) < HoldWork(s.procs[pid].pc)
      && s'.procs == s.procs[pid := s'.procs[pid]]
      && s'.work == s.work && s'.prm == s.prm && s'.daemon == s.daemon && s'.aging == s.aging
      && s'.blockSize == s.blockSize
      && (forall q :: 0 <= q < |s.procs| && q != pid ==> s'.procs[q] == s.procs[q])
  {
    hide ProcAsserts, AllocPage, FreePage, Touch, Resident, PatchFrame, PatchWritten;
  }

  function Drain(s: Sys): nat {
    ProcsWork(s.procs) + DaemonWork(s)
  }

  /** Processes that do not hold the MMU's lock stay where they are. */
  predicate OutsidersStay(s: Sys, s': Sys) {
    && |s'.procs| == |s.procs|
    && forall q :: 0 <= q < |s.procs| && !HoldsRead(s.procs[q].pc) && !HoldsWrite(s.procs[q].pc) ==>
      s'.procs[q] == s.procs[q]
  }

  /** One step of some lock holder, when the PRM is not one: less to drain, same commands. */
  lemma DrainStep(s: Sys) returns (step: Step)
    requires Inv(s) && !CanWrite(s.locks) && !PrmWrites(s.prm)
    ensures Continues(step) && Enabled(s, step) && Next(s, step).Some? && Inv(Next(s, step).value)
    ensures var s' := Next(s, step).value;
      && s'.work == s.work && s'.prm == s.prm && s'.blockSize == s.blockSize
      && OutsidersStay(s, s') && Drain(s') < Drain(s)
  {
    hide LockInv, BlocksInv, OwnInv, QueueInv, ServedInv, OwnerInv, AbsentInv, PrmInv, JobsInv, AccessInv, AgingInv,
      PassInv, StoreInv;
    hide ProcNext, ProcAsserts, PrmNext, PrmAsserts;
    step := HolderCanStep(s);
    StepSafe(s, step);
    var s' := Next(s, step).value;
    if step.Advance? {
      HolderUsesWork(s, step.pid);
      ProcsWorkUpdate(s.procs, step.pid, s'.procs[step.pid]);
      HolderKeepsSlots(s, step.pid);
    }
  }

  lemma HolderKeepsSlots(s: Sys, pid: nat)
    requires CanStep(s, pid)
    ensures |ProcNext(s, pid).store.cache.table.slots| == |s.store.cache.table.slots|
  {
    hide PatchWritten;
  }

  // ---------------------------------------------------------------- fault commands get served

  /** Steps of the PRM until it is done with the command it has, at most. */
  function StageWork(prm: Prm): nat {
    match prm
    case PrmIdle => 0
    case Completing(_) => 1
    case Loaded(_) => 2
    case Mapped(_) => 3
    case MapTry(_, tries) => if tries > 0 then 4 else 8
    case Synced(_, _, _) => 5
    case Chosen(_, _, _) => 6
    case Choosing(_, _) => 7
    case Popped(_) => 9
  }

  function Index(q: seq<nat>, c: nat): nat {
    if q == [] || q[0] == c then 0 else 1 + Index(q[1..], c)
  }

  /** Steps of the PRM until command `c` is served, at most: those before it in the queue come first. */
  function CommandWork(prm: Prm, queue: seq<nat>, c: nat): nat {
    StageWork(prm) + if InService(prm, c) then 0 else 10 * (Index(queue, c) + 1)
  }

  lemma PrmStepWork(s: Sys, c: nat)
    requires Inv(s) && PrmCan(s) && c in s.work.cmds && !s.work.cmds[c].done
    ensures var s' := PrmNext(s);
      || c in s'.work.served
      || (c in s'.work.cmds && s'.work.cmds[c] == s.work.cmds[c]
          && CommandWork(s'.prm, s'.work.queue, c) < CommandWork(s.prm, s.work.queue, c))
  {
    hide LockInv, BlocksInv, OwnInv, ServedInv, OwnerInv, AbsentInv, JobsInv, AccessInv, AgingInv, PassInv, StoreInv;
    hide PrmAsserts, Victim, SyncTo, Load, MapPage, Unmap;
  }

  ghost predicate AllContinue(run: seq<Step>) {
    forall i :: 0 <= i < |run| ==> Continues(run[i])
  }

  lemma Prepend(s: Sys, step: Step, run: seq<Step>)
    requires Enabled(s, step) && Next(s, step).Some? && IsRun(Next(s, step).value, run)
    ensures IsRun(s, [step] + run) && After(s, [step] + run) == After(Next(s, step).value, run)
  {
    assert ([step] + run)[1..] == run;
  }

  /** Command `c` has just been served: the PRM is at rest, the page is resident and its process still waits. */
  ghost predicate JustServed(s: Sys, c: nat, key: PageKey, proc: Proc) {
    && c in s.work.served && c in s.work.cmds && s.work.cmds[c] == Command(key, true)
    && s.prm.PrmIdle? && Resident(s.store.cache.table, key)
    && key.pid < |s.procs| && s.procs[key.pid] == proc
  }

  lemma OwnerOf(s: Sys, c: nat)
    requires Inv(s) && c in s.work.cmds && !s.work.cmds[c].done
    ensures var key := s.work.cmds[c].key;
      && key.pid < |s.procs| && s.procs[key.pid].pc.Waiting? && s.procs[key.pid].pc.cmd == c
      && KeyOf(key.pid, s.procs[key.pid].pc.job) == key
  {
    hide LockInv, BlocksInv, OwnInv, QueueInv, ServedInv, AbsentInv, PrmInv, JobsInv, AccessInv, AgingInv, PassInv,
      StoreInv;
    var key := s.work.cmds[c].key;
    assert HasCmd(s.procs[key.pid].pc, c);
  }

  lemma ServedNow(s: Sys, c: nat)
    requires Inv(s) && PrmCan(s) && c in s.work.cmds && !s.work.cmds[c].done && c in PrmNext(s).work.served
    requires s.work.cmds[c].key.pid < |s.procs|
    ensures JustServed(PrmNext(s), c, s.work.cmds[c].key, s.procs[s.work.cmds[c].key.pid])
  {
    hide LockInv, BlocksInv, OwnInv, QueueInv, OwnerInv, PrmInv, JobsInv, AccessInv, AgingInv, PassInv, StoreInv,
      Resident;
    hide SyncTo, Load, MapPage, Unmap, Victim;
  }

  lemma PrmKeepsProcs(s: Sys)
    requires PrmCan(s)
    ensures PrmNext(s).procs == s.procs && PrmNext(s).blockSize == s.blockSize
  {
    hide SyncTo, Load, MapPage, Unmap, Victim, PrmAsserts;
  }

  /** From every state with command `c` outstanding, threads already at work can get it served. */
  lemma ServeCommand(s: Sys, c: nat) returns (run: seq<Step>)
    requires Inv(s) && c in s.work.cmds && !s.work.cmds[c].done
    ensures AllContinue(run) && IsRun(s, run) && After(s, run).Some?
    ensures Inv(After(s, run).value) && c in After(s, run).value.work.served
    ensures var key := s.work.cmds[c].key;
      key.pid < |s.procs| && JustServed(After(s, run).value, c, key, s.procs[key.pid])
    decreases CommandWork(s.prm, s.work.queue, c), Drain(s)
  {
    hide Inv, IsRun, After, PrmNext, PrmAsserts, ProcAsserts, ProcNext, DaemonNext, CommandWork, Drain, Resident;
    var step;
    OwnerOf(s, c);
    if PrmEnabled(s) {
      step := PrmStep;
      StepSafe(s, step);
      PrmStepWork(s, c);
      PrmKeepsProcs(s);
      if c in Next(s, step).value.work.served {
        ServedNow(s, c);
        EmptyRun(Next(s, step).value);
        Prepend(s, step, []);
        return [step] + [];
      }
    } else {
      PrmBlocked(s, c);
      step := DrainStep(s);
    }
    run := ServeCommand(Next(s, step).value, c);
    Prepend(s, step, run);
    run := [step] + run;
  }

  lemma EmptyRun(s: Sys)
    ensures IsRun(s, []) && After(s, []) == Some(s)
  {
  }

  /** With a command outstanding, the PRM waits for nothing but the lock. */
  lemma PrmBlocked(s: Sys, c: nat)
    requires Inv(s) && c in s.work.cmds && !s.work.cmds[c].done && !PrmEnabled(s)
    ensures !CanWrite(s.locks) && !PrmWrites(s.prm)
  {
    hide LockInv, BlocksInv, OwnInv, ServedInv, OwnerInv, AbsentInv, PrmInv, JobsInv, AccessInv, AgingInv, PassInv,
      StoreInv;
  }

  // ---------------------------------------------------------------- aging requests get served

  /** Steps of the daemon until the pass it owes is over, at most. */
  function PassWork(s: Sys): nat {
    var n := |s.store.cache.table.slots|;
    match s.daemon
    case DaemonIdle => if s.aging.doneUpdating then 0 else n + 5
    case Holding => n + 4
    case Passing(i) => (if i < n then n - i else 0) + 3
    case Passed => 2
    case Finishing => 1
  }

  /** The steps of a writer until it gives up the lock, at most. */
  function WriterWork(s: Sys): nat {
    if PrmWrites(s.prm) then StageWork(s.prm) else ProcsWork(s.procs)
  }

  lemma DaemonStepWork(s: Sys, p: nat)
    requires Inv(s) && DaemonEnabled(s) && (s.daemon.Passing? ==> s.daemon.i <= |s.store.cache.table.slots|)
    requires p < |s.procs| && s.procs[p].pc.Awaiting?
    requires !(s.daemon.DaemonIdle? && s.aging.doneUpdating)
    ensures PassWork(DaemonNext(s)) < PassWork(s) && DaemonNext(s).procs == s.procs
  {
    hide LockInv, BlocksInv, OwnInv, QueueInv, ServedInv, OwnerInv, AbsentInv, PrmInv, JobsInv, AccessInv, StoreInv,
      PassInv;
  }

  /** The PRM under the lock moves towards giving it up, and leaves the table's size and the processes alone. */
  lemma PrmUsesWork(s: Sys)
    requires Inv(s) && PrmCan(s) && PrmWrites(s.prm)
    ensures var s' := PrmNext(s);
      && s'.procs == s.procs && s'.daemon == s.daemon && s'.aging == s.aging
      && |s'.store.cache.table.slots| == |s.store.cache.table.slots|
      && StageWork(s'.prm) < StageWork(s.prm)
      && (!PrmWrites(s'.prm) ==> s'.locks.writer == None)
  {
    hide BlocksInv, OwnInv, QueueInv, ServedInv, OwnerInv, AbsentInv, JobsInv, AccessInv, AgingInv, PassInv, StoreInv,
      LockInv;
    hide Victim;
  }

  /** Move whoever keeps the daemon from the read lock. */
  lemma WriterStep(s: Sys) returns (step: Step)
    requires Inv(s) && s.locks.writer.Some?
    ensures Continues(step) && Enabled(s, step) && Next(s, step).Some? && Inv(Next(s, step).value)
    ensures var s' := Next(s, step).value;
      && s'.daemon == s.daemon && s'.aging == s.aging
      && |s'.store.cache.table.slots| == |s.store.cache.table.slots|
      && OutsidersStay(s, s')
      && (s'.locks.writer == None || WriterWork(s') < WriterWork(s))
  {
    hide LockInv, BlocksInv, OwnInv, QueueInv, ServedInv, OwnerInv, AbsentInv, PrmInv, JobsInv, AccessInv, AgingInv,
      PassInv, StoreInv;
    hide ProcNext, ProcAsserts, PrmNext, PrmAsserts;
    step := HolderCanStep(s);
    StepSafe(s, step);
    var s' := Next(s, step).value;
    if step.PrmStep? {
      PrmUsesWork(s);
    } else {
      HolderUsesWork(s, step.pid);
      ProcsWorkUpdate(s.procs, step.pid, s'.procs[step.pid]);
      HolderKeepsSlots(s, step.pid);
      WriterIsOne(s, step);
    }
  }

  lemma WriterIsOne(s: Sys, step: Step)
    requires LockInv(s.procs, s.prm, s.daemon, s.locks) && s.locks.writer.Some?
    requires step.Advance? && Enabled(s, step)
    requires HoldsRead(s.procs[step.pid].pc) || HoldsWrite(s.procs[step.pid].pc)
    ensures !PrmWrites(s.prm)
  {
  }

  /** From every state in which process `p` awaits an aging pass, threads already at work can let it go on. */
  lemma FinishAging(s: Sys, p: nat) returns (run: seq<Step>)
    requires Inv(s) && p < |s.procs| && s.procs[p].pc.Awaiting?
    ensures AllContinue(run) && IsRun(s, run) && After(s, run).Some?
    ensures var s' := After(s, run).value; Inv(s') && p < |s'.procs| && s'.procs[p].pc.Idle?
    decreases PassWork(s), if s.locks.writer.Some? then WriterWork(s) + 1 else 0
  {
    hide Inv, IsRun, After, PrmNext, PrmAsserts, ProcAsserts, ProcNext, DaemonNext, PassWork, WriterWork;
    var step;
    AgingChoices(s, p);
    if s.daemon.DaemonIdle? && s.aging.doneUpdating {
      step := Advance(p);
      StepSafe(s, step);
      LeaveAwaiting(s, p);
      EmptyRun(Next(s, step).value);
      Prepend(s, step, []);
      return [step] + [];
    } else if DaemonEnabled(s) {
      step := DaemonStep;
      StepSafe(s, step);
      if s.daemon.Passing? { PassInRange(s); }
      DaemonStepWork(s, p);
    } else {
      step := WriterStep(s);
      SamePassWork(s, Next(s, step).value);
    }
    run := FinishAging(Next(s, step).value, p);
    Prepend(s, step, run);
    run := [step] + run;
  }

  /** Either the pass is done, or the daemon can move, or a writer is in its way. */
  lemma AgingChoices(s: Sys, p: nat)
    requires Inv(s) && p < |s.procs| && s.procs[p].pc.Awaiting?
    ensures s.daemon.DaemonIdle? && s.aging.doneUpdating ==> Enabled(s, Advance(p))
    ensures !(s.daemon.DaemonIdle? && s.aging.doneUpdating) && !DaemonEnabled(s) ==> s.locks.writer.Some?
  {
    hide BlocksInv, OwnInv, QueueInv, ServedInv, OwnerInv, AbsentInv, PrmInv, JobsInv, AccessInv, PassInv, StoreInv;
  }

  lemma LeaveAwaiting(s: Sys, p: nat)
    requires CanStep(s, p) && s.procs[p].pc.Awaiting?
    ensures |ProcNext(s, p).procs| == |s.procs| && ProcNext(s, p).procs[p].pc == Idle
  {
  }

  lemma PassInRange(s: Sys)
    requires Inv(s) && s.daemon.Passing?
    ensures s.daemon.i <= |s.store.cache.table.slots|
  {
  }

  lemma SamePassWork(s: Sys, s': Sys)
    requires s'.daemon == s.daemon && s'.aging == s.aging
    requires |s'.store.cache.table.slots| == |s.store.cache.table.slots|
    ensures PassWork(s') == PassWork(s)
  {
  }

  // ---------------------------------------------------------------- for every reachable state

  ghost predicate CanReach(s: Sys, run: seq<Step>, s': Sys) {
    AllContinue(run) && IsRun(s, run) && After(s, run) == Some(s')
  }

  /** No outstanding fault is ever stuck: threads already at work can get its command served. */
  lemma FaultsCanFinish(s: Sys, c: nat)
    requires Reachable(s) && c in s.work.cmds && !s.work.cmds[c].done
    ensures exists run, s' :: CanReach(s, run, s') && c in s'.work.served
  {
    hide Inv, Reachable, IsRun, After;
    ReachableInv(s);
    var run := ServeCommand(s, c);
    assert CanReach(s, run, After(s, run).value);
  }

  /** No aging request is ever stuck: threads already at work can let its process go on. */
  lemma AgingCanFinish(s: Sys, p: nat)
    requires Reachable(s) && p < |s.procs| && s.procs[p].pc.Awaiting?
    ensures exists run, s' :: CanReach(s, run, s') && p < |s'.procs| && s'.procs[p].pc.Idle?
  {
    hide Inv, Reachable, IsRun, After;
    ReachableInv(s);
    var run := FinishAging(s, p);
    assert CanReach(s, run, After(s, run).value);
  }
}
