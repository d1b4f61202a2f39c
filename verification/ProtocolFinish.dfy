/**
 Every process can finish what it is doing: from every reachable state, steps of threads already at work bring
 it to rest, through the retry loop of mmu_pin_page, its aging request, its creation or its destruction.
 */
module ProtocolFinish {
  import opened VmTypes
  import opened PageTable
  import opened Cache
  import opened Protocol
  import opened ProtocolInv
  import opened ProtocolProc
  import opened ProtocolSystem
  import opened ProtocolProgress

  predicate AtRest(pc: Pc) {
    pc.Idle? || pc.Dead?
  }

  /** Steps of threads at work can bring process `p` to rest. */
  ghost predicate CanFinish(s: Sys, p: nat) {
    exists run, s' :: CanReach(s, run, s') && p < |s'.procs| && AtRest(s'.procs[p].pc)
  }

  // ---------------------------------------------------------------- putting runs together

  lemma RestIsFinished(s: Sys, p: nat)
    requires p < |s.procs| && AtRest(s.procs[p].pc)
    ensures CanFinish(s, p)
  {
    EmptyRun(s);
    assert CanReach(s, [], s);
  }

  lemma StepThen(s: Sys, step: Step, p: nat)
    requires Continues(step) && Enabled(s, step) && Next(s, step).Some? && CanFinish(Next(s, step).value, p)
    ensures CanFinish(s, p)
  {
    hide Next, Enabled, IsRun, After;
    var run, s' :| CanReach(Next(s, step).value, run, s') && p < |s'.procs| && AtRest(s'.procs[p].pc);
    Prepend(s, step, run);
    assert CanReach(s, [step] + run, s');
  }

  lemma {:induction false} RunThen(s: Sys, run: seq<Step>, p: nat)
    requires AllContinue(run) && IsRun(s, run) && After(s, run).Some? && CanFinish(After(s, run).value, p)
    ensures CanFinish(s, p)
    decreases |run|
  {
    hide Next, Enabled, CanFinish;
    if run != [] {
      assert Continues(run[0]);
      RunThen(Next(s, run[0]).value, run[1..], p);
      StepThen(s, run[0], p);
    }
  }

  /** An enabled process takes its own step. */
  lemma OwnStep(s: Sys, p: nat) returns (s': Sys)
    requires Inv(s) && p < |s.procs| && ProcEnabled(s, p)
    ensures CanStep(s, p) && s' == ProcNext(s, p) && Inv(s')
    ensures p < |s'.procs|
    ensures CanFinish(s', p) ==> CanFinish(s, p)
  {
    hide Inv, ProcEnabled, ProcAsserts, ProcNext, CanFinish;
    StepSafe(s, Advance(p));
    s' := ProcNext(s, p);
    KeepsCount(s, p);
    if CanFinish(s', p) { StepThen(s, Advance(p), p); }
  }

  lemma KeepsCount(s: Sys, p: nat)
    requires CanStep(s, p)
    ensures |ProcNext(s, p).procs| == |s.procs|
  {
    hide Moved, LockMove, LifeNext, PinNext, FaultNext, AccessNext;
    if InLife(s.procs[p].pc) { LifeMoves(s, p); MovedCount(s, p, LifeNext(s, p)); }
    else if InPin(s.procs[p].pc) { PinMoves(s, p); MovedCount(s, p, PinNext(s, p)); }
    else if InFault(s.procs[p].pc) { FaultMoves(s, p); MovedCount(s, p, FaultNext(s, p)); }
    else { AccessMoves(s, p); MovedCount(s, p, AccessNext(s, p)); }
  }

  lemma MovedCount(s: Sys, p: nat, s': Sys)
    requires Moved(s, p, s')
    ensures |s'.procs| == |s.procs| && s'.prm == s.prm && s'.blockSize == s.blockSize
  {
  }

  // ---------------------------------------------------------------- after the copy

  lemma FinishAwaiting(s: Sys, p: nat)
    requires Inv(s) && p < |s.procs| && s.procs[p].pc.Awaiting?
    ensures CanFinish(s, p)
  {
    hide Inv, IsRun, After, AllContinue, CanFinish;
    var run := FinishAging(s, p);
    RestIsFinished(After(s, run).value, p);
    RunThen(s, run, p);
  }

  /** The daemon, not at rest, takes a step if it can. */
  lemma DaemonMovesOn(s: Sys) returns (s': Sys)
    requires Enabled(s, DaemonStep) && !s.daemon.DaemonIdle? && Inv(s)
    ensures Next(s, DaemonStep) == Some(s') && Inv(s') && PassWork(s') < PassWork(s) && s'.procs == s.procs
  {
    hide Inv, DaemonNext, PassWork, ProcNext, ProcAsserts, PrmNext, PrmAsserts;
    StepSafe(s, DaemonStep);
    if s.daemon.Passing? { PassInRange(s); }
    s' := DaemonNext(s);
    DaemonWorks(s);
  }

  lemma DaemonWorks(s: Sys)
    requires DaemonEnabled(s) && !s.daemon.DaemonIdle?
    requires s.daemon.Passing? ==> s.daemon.i <= |s.store.cache.table.slots|
    ensures PassWork(DaemonNext(s)) < PassWork(s) && DaemonNext(s).procs == s.procs
  {
  }

  lemma MutexHolder(s: Sys)
    requires Inv(s) && s.locks.daemonMutex != None
    ensures !s.daemon.DaemonIdle? && (!DaemonEnabled(s) ==> s.locks.writer.Some?)
  {
    hide BlocksInv, OwnInv, QueueInv, ServedInv, OwnerInv, AbsentInv, PrmInv, JobsInv, AccessInv, AgingInv, PassInv,
      StoreInv;
  }

  lemma RequestingNext(s: Sys, p: nat)
    requires CanStep(s, p) && s.procs[p].pc.Requesting?
    ensures p < |ProcNext(s, p).procs| && ProcNext(s, p).procs[p].pc.Awaiting?
  {
    hide ProcAsserts;
  }

  lemma FinishRequesting(s: Sys, p: nat)
    requires Inv(s) && p < |s.procs| && s.procs[p].pc.Requesting?
    ensures CanFinish(s, p)
    decreases PassWork(s), if s.locks.writer.Some? then WriterWork(s) + 1 else 0
  {
    hide Inv, CanFinish, ProcNext, ProcAsserts, DaemonNext, PrmNext, PrmAsserts, PassWork, WriterWork;
    if s.locks.daemonMutex == None {
      var s' := OwnStep(s, p);
      RequestingNext(s, p);
      FinishAwaiting(s', p);
    } else {
      MutexHolder(s);
      var step;
      if DaemonEnabled(s) {
        var s' := DaemonMovesOn(s);
        step := DaemonStep;
      } else {
        step := WriterStep(s);
        SamePassWork(s, Next(s, step).value);
      }
      FinishRequesting(Next(s, step).value, p);
      StepThen(s, step, p);
    }
  }

  lemma CountingNext(s: Sys, p: nat)
    requires CanStep(s, p) && (s.procs[p].pc.Counting? || s.procs[p].pc.Zeroing?)
    ensures p < |ProcNext(s, p).procs|
    ensures var pc := ProcNext(s, p).procs[p].pc;
      if s.procs[p].pc.Counting? then pc.Idle? || pc.Zeroing? else pc.Requesting?
  {
    hide ProcAsserts;
  }

  lemma FinishCounting(s: Sys, p: nat)
    requires Inv(s) && p < |s.procs| && (s.procs[p].pc.Counting? || s.procs[p].pc.Zeroing?)
    ensures CanFinish(s, p)
    decreases s.procs[p].pc.Counting?
  {
    hide Inv, CanFinish, ProcNext, ProcAsserts;
    var s' := OwnStep(s, p);
    CountingNext(s, p);
    if s'.procs[p].pc.Idle? { RestIsFinished(s', p); }
    else if s'.procs[p].pc.Zeroing? { FinishCounting(s', p); }
    else { FinishRequesting(s', p); }
  }

  // ---------------------------------------------------------------- the copy

  lemma CopyingNext(s: Sys, p: nat)
    requires CanStep(s, p) && (s.procs[p].pc.Pinned? || s.procs[p].pc.Marked? || s.procs[p].pc.Copying?)
    ensures p < |ProcNext(s, p).procs|
    ensures var pc := ProcNext(s, p).procs[p].pc; pc.Marked? || pc.Copying? || pc.Counting?
    ensures HoldWork(ProcNext(s, p).procs[p].pc) < HoldWork(s.procs[p].pc)
  {
    hide ProcNext, ProcAsserts;
    HolderUsesWork(s, p);
    CopyingMoves(s, p);
  }

  lemma CopyingMoves(s: Sys, p: nat)
    requires CanStep(s, p) && (s.procs[p].pc.Pinned? || s.procs[p].pc.Marked? || s.procs[p].pc.Copying?)
    ensures p < |ProcNext(s, p).procs|
    ensures var pc := ProcNext(s, p).procs[p].pc; pc.Marked? || pc.Copying? || pc.Counting?
  {
    hide ProcAsserts, Touch, PatchFrame, PatchWritten;
  }

  lemma FinishCopy(s: Sys, p: nat)
    requires Inv(s) && p < |s.procs| && (s.procs[p].pc.Pinned? || s.procs[p].pc.Marked? || s.procs[p].pc.Copying?)
    ensures CanFinish(s, p)
    decreases HoldWork(s.procs[p].pc)
  {
    hide Inv, CanFinish, ProcNext, ProcAsserts, HoldWork;
    var s' := OwnStep(s, p);
    CopyingNext(s, p);
    if s'.procs[p].pc.Counting? { FinishCounting(s', p); } else { FinishCopy(s', p); }
  }

  // ---------------------------------------------------------------- a fault that has just been served

  lemma CheckNext(s: Sys, p: nat)
    requires CanStep(s, p) && (s.procs[p].pc.Checking? || s.procs[p].pc.Rechecking?)
    ensures p < |ProcNext(s, p).procs|
    ensures var job, pc := s.procs[p].pc.job, ProcNext(s, p).procs[p].pc;
      pc == if Resident(s.store.cache.table, KeyOf(p, job)) then Pinned(job) else Missing(job)
  {
    hide ProcAsserts, Resident;
  }

  /** The page of the access that process `p` is making is resident, and the PRM is at rest. */
  ghost predicate ReadyToPin(s: Sys, p: nat) {
    && s.prm.PrmIdle? && p < |s.procs|
    && match s.procs[p].pc
       case Waiting(job, cmd) => cmd in s.work.cmds && s.work.cmds[cmd].done
         && Resident(s.store.cache.table, KeyOf(p, job))
       case Woken(job, _) => Resident(s.store.cache.table, KeyOf(p, job))
       case Reentering(job) => Resident(s.store.cache.table, KeyOf(p, job))
       case Rechecking(job) => Resident(s.store.cache.table, KeyOf(p, job))
       case _ => false
  }

  function PinWork(pc: Pc): nat {
    match pc
    case Waiting(_, _) => 4
    case Woken(_, _) => 3
    case Reentering(_) => 2
    case _ => 1
  }

  lemma ReadyNext(s: Sys, p: nat)
    requires CanStep(s, p) && ReadyToPin(s, p) && !s.procs[p].pc.Rechecking?
    ensures ReadyToPin(ProcNext(s, p), p) && PinWork(ProcNext(s, p).procs[p].pc) < PinWork(s.procs[p].pc)
  {
    hide ProcAsserts, Resident;
  }

  /** The process `q` that keeps `p` from the read lock gives it up in one step and takes no page of `p` away. */
  lemma WriterLeaves(s: Sys, p: nat) returns (q: nat)
    requires Inv(s) && ReadyToPin(s, p) && s.procs[p].pc.Reentering? && s.locks.writer.Some?
    ensures q < |s.procs| && ProcEnabled(s, q) && CanStep(s, q)
    ensures ReadyToPin(ProcNext(s, q), p) && ProcNext(s, q).procs[p] == s.procs[p]
    ensures ProcNext(s, q).locks.writer == None
  {
    hide Inv, ProcAsserts, Undisturbed, Resident, ProcEnabled, LifeNext, ProcNext, CanFinish;
    q := IdleWriter(s);
    var s' := OwnStep(s, q);
    LifeIsOwn(s, q);
    hide ReadyToPin;
    LifeIsUndisturbing(s, q, p);
    LifeReleases(s, q, p);
    StaysReady(s, s', p);
  }

  lemma LifeIsOwn(s: Sys, q: nat)
    requires CanStep(s, q) && InLife(s.procs[q].pc)
    ensures ProcNext(s, q) == LifeNext(s, q)
  {
    hide LifeNext, ProcAsserts, ProcEnabled;
  }

  lemma StaysReady(s: Sys, s': Sys, p: nat)
    requires ReadyToPin(s, p) && s.procs[p].pc.Reentering? && Undisturbed(s.store, s'.store, p)
    requires p < |s'.procs| && s'.procs[p] == s.procs[p] && s'.prm == s.prm
    ensures ReadyToPin(s', p)
  {
    UndisturbedResident(s.store, s'.store, p, KeyOf(p, s.procs[p].pc.job));
    hide Undisturbed, Resident;
  }

  /** With the PRM at rest only a process can hold the write lock. */
  lemma IdleWriter(s: Sys) returns (q: nat)
    requires Inv(s) && s.prm.PrmIdle? && s.locks.writer.Some?
    ensures q < |s.procs| && HoldsWrite(s.procs[q].pc) && ProcEnabled(s, q)
  {
    hide BlocksInv, OwnInv, QueueInv, ServedInv, OwnerInv, AbsentInv, PrmInv, JobsInv, AccessInv, AgingInv, PassInv,
      StoreInv;
    q := s.locks.writer.value.pid;
  }

  lemma LifeReleases(s: Sys, q: nat, p: nat)
    requires CanStep(s, q) && HoldsWrite(s.procs[q].pc) && p < |s.procs| && p != q
    ensures var s' := LifeNext(s, q);
      |s'.procs| == |s.procs| && s'.procs[p] == s.procs[p] && s'.prm == s.prm && s'.locks.writer == None
  {
    hide ProcAsserts, AllocPage, FreePage;
  }

  lemma FinishServed(s: Sys, p: nat)
    requires Inv(s) && ReadyToPin(s, p)
    ensures CanFinish(s, p)
    decreases PinWork(s.procs[p].pc), s.locks.writer.Some?
  {
    hide Inv, CanFinish, ProcNext, ProcAsserts, Resident, PinWork;
    if s.procs[p].pc.Reentering? && s.locks.writer.Some? {
      var q := WriterLeaves(s, p);
      StepSafe(s, Advance(q));
      FinishServed(ProcNext(s, q), p);
      StepThen(s, Advance(q), p);
    } else {
      var s' := OwnStep(s, p);
      if s.procs[p].pc.Rechecking? {
        CheckNext(s, p);
        FinishCopy(s', p);
      } else {
        ReadyNext(s, p);
        FinishServed(s', p);
      }
    }
  }

  // ---------------------------------------------------------------- a fault of its own

  lemma FinishWaiting(s: Sys, p: nat)
    requires Inv(s) && p < |s.procs| && s.procs[p].pc.Waiting?
    requires s.procs[p].pc.cmd in s.work.cmds && !s.work.cmds[s.procs[p].pc.cmd].done
    ensures CanFinish(s, p)
  {
    hide Inv, IsRun, After, AllContinue, CanFinish, Resident, ReadyToPin, JustServed, Next;
    var c := s.procs[p].pc.cmd;
    WaitsForOwn(s, p);
    var run := ServeCommand(s, c);
    var s' := After(s, run).value;
    ServedIsReady(s', p, s.procs[p], c);
    FinishServed(s', p);
    RunThen(s, run, p);
  }

  lemma ServedIsReady(s: Sys, p: nat, proc: Proc, c: nat)
    requires proc.pc.Waiting? && proc.pc.cmd == c && JustServed(s, c, KeyOf(p, proc.pc.job), proc)
    ensures ReadyToPin(s, p)
  {
    hide Resident;
  }

  lemma WaitsForOwn(s: Sys, p: nat)
    requires Inv(s) && p < |s.procs| && s.procs[p].pc.Waiting?
    ensures s.procs[p].pc.cmd in s.work.cmds && s.work.cmds[s.procs[p].pc.cmd].key == KeyOf(p, s.procs[p].pc.job)
  {
    hide LockInv, BlocksInv, OwnInv, QueueInv, ServedInv, AbsentInv, PrmInv, JobsInv, AccessInv, AgingInv, PassInv,
      StoreInv;
  }

  lemma MissingNext(s: Sys, p: nat)
    requires CanStep(s, p) && (s.procs[p].pc.Missing? || s.procs[p].pc.Faulting?)
    ensures var s' := ProcNext(s, p);
      && p < |s'.procs|
      && if s.procs[p].pc.Missing? then s'.procs[p].pc.Faulting?
         else s'.procs[p].pc.Waiting? && s'.procs[p].pc.cmd in s'.work.cmds && !s'.work.cmds[s'.procs[p].pc.cmd].done
  {
    hide ProcAsserts;
  }

  lemma FinishMissing(s: Sys, p: nat)
    requires Inv(s) && p < |s.procs| && (s.procs[p].pc.Missing? || s.procs[p].pc.Faulting?)
    ensures CanFinish(s, p)
    decreases s.procs[p].pc.Missing?
  {
    hide Inv, CanFinish, ProcNext, ProcAsserts;
    var s' := OwnStep(s, p);
    MissingNext(s, p);
    if s.procs[p].pc.Missing? { FinishMissing(s', p); } else { FinishWaiting(s', p); }
  }

  // ---------------------------------------------------------------- any access

  /** Before the residency test, whoever else is at work. */
  predicate Approaching(pc: Pc) {
    pc.Entering? || pc.Checking? || pc.Waiting? || pc.Woken? || pc.Reentering? || pc.Rechecking?
  }

  function ApproachWork(pc: Pc): nat {
    match pc
    case Waiting(_, _) => 4
    case Woken(_, _) => 3
    case Entering(_) => 2
    case Reentering(_) => 2
    case _ => 1
  }

  lemma ApproachNext(s: Sys, p: nat)
    requires CanStep(s, p) && Approaching(s.procs[p].pc) && ApproachWork(s.procs[p].pc) > 1
    ensures p < |ProcNext(s, p).procs|
    ensures var pc := ProcNext(s, p).procs[p].pc; Approaching(pc) && ApproachWork(pc) < ApproachWork(s.procs[p].pc)
  {
    hide ProcAsserts;
  }

  /**
   A process on its way to the residency test. Its page may have been evicted again since its command was
   served; then it faults once more, and this time it is next after its command.
   */
  lemma FinishApproach(s: Sys, p: nat)
    requires Inv(s) && p < |s.procs| && Approaching(s.procs[p].pc)
    ensures CanFinish(s, p)
    decreases ApproachWork(s.procs[p].pc), if s.locks.writer.Some? then WriterWork(s) + 1 else 0
  {
    hide Inv, CanFinish, ProcNext, ProcAsserts, PrmNext, PrmAsserts, Resident, ApproachWork, WriterWork;
    var pc := s.procs[p].pc;
    if pc.Waiting? { WaitsForOwn(s, p); }
    if pc.Waiting? && !s.work.cmds[pc.cmd].done {
      FinishWaiting(s, p);
    } else if (pc.Entering? || pc.Reentering?) && s.locks.writer.Some? {
      var step := WriterStep(s);
      FinishApproach(Next(s, step).value, p);
      StepThen(s, step, p);
    } else {
      var s' := OwnStep(s, p);
      if pc.Checking? || pc.Rechecking? {
        CheckNext(s, p);
        if s'.procs[p].pc.Pinned? { FinishCopy(s', p); } else { FinishMissing(s', p); }
      } else {
        TestComesLast(pc);
        ApproachNext(s, p);
        FinishApproach(s', p);
      }
    }
  }

  lemma TestComesLast(pc: Pc)
    requires Approaching(pc) && !pc.Checking? && !pc.Rechecking?
    ensures ApproachWork(pc) > 1
  {
  }

  // ---------------------------------------------------------------- creation and destruction

  /** Steps until the MMU's lock is free, at most. */
  function LockWork(s: Sys): nat {
    Drain(s) + if PrmWrites(s.prm) then StageWork(s.prm) else 0
  }

  /** Some holder of the MMU's lock moves towards giving it up. */
  lemma ReleaseStep(s: Sys) returns (step: Step)
    requires Inv(s) && !CanWrite(s.locks)
    ensures Continues(step) && Enabled(s, step) && Next(s, step).Some? && Inv(Next(s, step).value)
    ensures var s' := Next(s, step).value;
      s'.blockSize == s.blockSize && OutsidersStay(s, s') && LockWork(s') < LockWork(s)
  {
    hide Inv, PrmNext, PrmAsserts, ProcNext, DaemonNext, ProcAsserts, ProcsWork, StageWork;
    if PrmWrites(s.prm) {
      step := PrmStep;
      StepSafe(s, step);
      PrmUsesWork(s);
      PrmKeepsProcs(s);
    } else {
      step := DrainStep(s);
    }
  }

  lemma LifeStepNext(s: Sys, p: nat)
    requires CanStep(s, p) && InLife(s.procs[p].pc) && Bounded(s.procs[p].pc, s.blockSize)
    ensures p < |ProcNext(s, p).procs| && ProcNext(s, p).blockSize == s.blockSize
    ensures var pc := ProcNext(s, p).procs[p].pc;
      AtRest(pc) || (InLife(pc) && LifeWork(pc, s.blockSize) < LifeWork(s.procs[p].pc, s.blockSize))
  {
    hide ProcAsserts, AllocPage, FreePage;
  }

  /** Steps of creation or destruction still to make, at most. */
  function LifeWork(pc: Pc, blockSize: nat): nat {
    match pc
    case Mapping(n) => if n < blockSize then 2 * (blockSize - n) + 1 else 0
    case Unmapping(n) => if n < blockSize then 2 * (blockSize - n) + 1 else 0
    case MappingLocked(n) => if n < blockSize then 2 * (blockSize - n) else 0
    case UnmappingLocked(n) => if n < blockSize then 2 * (blockSize - n) else 0
    case _ => 0
  }

  lemma LifeInRange(s: Sys, p: nat)
    requires Inv(s) && p < |s.procs|
    ensures Bounded(s.procs[p].pc, s.blockSize)
  {
  }

  lemma FinishLife(s: Sys, p: nat)
    requires Inv(s) && p < |s.procs| && InLife(s.procs[p].pc)
    ensures CanFinish(s, p)
    decreases LifeWork(s.procs[p].pc, s.blockSize), LockWork(s)
  {
    hide Inv, CanFinish, ProcNext, ProcAsserts, PrmNext, PrmAsserts, LifeWork, LockWork;
    if ProcEnabled(s, p) {
      var s' := OwnStep(s, p);
      LifeInRange(s, p);
      LifeStepNext(s, p);
      if AtRest(s'.procs[p].pc) { RestIsFinished(s', p); } else { FinishLife(s', p); }
    } else {
      var step := ReleaseStep(s);
      FinishLife(Next(s, step).value, p);
      StepThen(s, step, p);
    }
  }

  // ---------------------------------------------------------------- for every reachable state

  /** No process is ever stuck, whatever it is doing. */
  lemma EveryProcessCanFinish(s: Sys, p: nat)
    requires Reachable(s) && p < |s.procs|
    ensures CanFinish(s, p)
  {
    hide Inv, Reachable, CanFinish;
    ReachableInv(s);
    var pc := s.procs[p].pc;
    if AtRest(pc) { RestIsFinished(s, p); }
    else if InLife(pc) { FinishLife(s, p); }
    else if Approaching(pc) { FinishApproach(s, p); }
    else if pc.Missing? || pc.Faulting? { FinishMissing(s, p); }
    else if pc.Pinned? || pc.Marked? || pc.Copying? { FinishCopy(s, p); }
    else if pc.Counting? || pc.Zeroing? { FinishCounting(s, p); }
    else if pc.Requesting? { FinishRequesting(s, p); }
    else { FinishAwaiting(s, p); }
  }
}
