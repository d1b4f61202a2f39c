/**
 What the runs of the step model add up to: which disk pages are in use, in which order faults are served, and
 how references are counted.
 */
module ProtocolLedger {
  import opened VmTypes
  import opened PageTable
  import opened Cache
  import opened Protocol
  import opened ProtocolInv
  import opened ProtocolProc
  import opened ProtocolSystem

  // ---------------------------------------------------------------- disk pages

  /** Disk page `d` is in the block of process `p`, which is not dead. */
  predicate InBlock(blockSize: nat, procs: seq<Proc>, p: int, d: int) {
    0 <= p < |procs| && !procs[p].pc.Dead? && procs[p].start <= d < procs[p].start + blockSize
  }

  /** Every disk page in use belongs to somebody. */
  ghost predicate UsedOwned(blockSize: nat, procs: seq<Proc>, used: seq<bool>) {
    forall d :: 0 <= d < |used| && used[d] ==> exists p :: InBlock(blockSize, procs, p, d)
  }

  /** The same slots are dead, the others have the same blocks. */
  predicate SameBlocks(procs: seq<Proc>, procs': seq<Proc>) {
    && |procs'| == |procs|
    && forall p :: 0 <= p < |procs| ==> procs'[p].start == procs[p].start && procs'[p].pc.Dead? == procs[p].pc.Dead?
  }

  lemma SameBlocksKeep(blockSize: nat, procs: seq<Proc>, procs': seq<Proc>, used: seq<bool>)
    requires UsedOwned(blockSize, procs, used) && SameBlocks(procs, procs')
    ensures UsedOwned(blockSize, procs', used)
  {
    forall d | 0 <= d < |used| && used[d] ensures exists p :: InBlock(blockSize, procs', p, d) {
      var p :| InBlock(blockSize, procs, p, d);
      assert InBlock(blockSize, procs', p, d);
    }
  }

  lemma NewBlockOwned(blockSize: nat, procs: seq<Proc>, used: seq<bool>, pid: nat, start: nat)
    requires UsedOwned(blockSize, procs, used) && pid < |procs| && procs[pid].pc.Dead?
    requires ClearRange(used, start, blockSize)
    ensures UsedOwned(blockSize, procs[pid := Proc(Mapping(0), start)], SetRange(used, start, blockSize, true))
  {
    var procs', used' := procs[pid := Proc(Mapping(0), start)], SetRange(used, start, blockSize, true);
    forall d | 0 <= d < |used'| && used'[d] ensures exists p :: InBlock(blockSize, procs', p, d) {
      if start <= d < start + blockSize {
        assert InBlock(blockSize, procs', pid, d);
      } else {
        var p :| InBlock(blockSize, procs, p, d);
        assert InBlock(blockSize, procs', p, d);
      }
    }
  }

  lemma BlockGoneOwned(blockSize: nat, procs: seq<Proc>, used: seq<bool>, pid: nat)
    requires UsedOwned(blockSize, procs, used) && pid < |procs| && procs[pid].start + blockSize <= |used|
    ensures UsedOwned(blockSize, procs[pid := procs[pid].(pc := Dead)],
      SetRange(used, procs[pid].start, blockSize, false))
  {
    var procs', used' := procs[pid := procs[pid].(pc := Dead)], SetRange(used, procs[pid].start, blockSize, false);
    forall d | 0 <= d < |used'| && used'[d] ensures exists p :: InBlock(blockSize, procs', p, d) {
      var p :| InBlock(blockSize, procs, p, d);
      assert InBlock(blockSize, procs', p, d);
    }
  }

  /** The step with which a process dies. */
  predicate Dies(s: Sys, pid: nat)
    requires pid < |s.procs|
  {
    s.procs[pid].pc.Unmapping? && s.procs[pid].pc.next >= s.blockSize
  }

  lemma DeathIs(s: Sys, pid: nat)
    requires CanStep(s, pid) && Dies(s, pid)
    ensures var s' := ProcNext(s, pid);
      && s.procs[pid].start + s.blockSize <= |s.store.cache.used|
      && s'.procs == s.procs[pid := s.procs[pid].(pc := Dead)] && s'.blockSize == s.blockSize
      && s'.store.cache.used == SetRange(s.store.cache.used, s.procs[pid].start, s.blockSize, false)
  {
    hide SetRange;
  }

  /** Neither the blocks nor the disk pages in use change. */
  predicate SameUse(s: Sys, s': Sys) {
    s'.store.cache.used == s.store.cache.used && s'.blockSize == s.blockSize && SameBlocks(s.procs, s'.procs)
  }

  lemma LifeKeepsUsed(s: Sys, pid: nat)
    requires CanStep(s, pid) && InLife(s.procs[pid].pc) && !Dies(s, pid)
    ensures SameUse(s, LifeNext(s, pid))
  {
    hide ProcAsserts, Add, Remove;
  }

  lemma AccessKeepsUsed(s: Sys, pid: nat)
    requires CanStep(s, pid) && InAccess(s.procs[pid].pc)
    ensures SameUse(s, AccessNext(s, pid))
  {
    hide ProcAsserts, Reference, PatchWritten, Patch;
  }

  lemma FaultKeepsUsed(s: Sys, pid: nat)
    requires CanStep(s, pid) && (InFault(s.procs[pid].pc) || InPin(s.procs[pid].pc))
    ensures SameUse(s, ProcNext(s, pid))
  {
    hide ProcAsserts, Resident, LifeNext, AccessNext;
  }

  lemma ProcKeepsUsed(s: Sys, pid: nat)
    requires CanStep(s, pid) && !Dies(s, pid)
    ensures SameUse(s, ProcNext(s, pid))
  {
    hide ProcAsserts, LifeNext, AccessNext, PinNext, FaultNext, SameUse;
    if InLife(s.procs[pid].pc) { LifeKeepsUsed(s, pid); }
    else if InAccess(s.procs[pid].pc) { AccessKeepsUsed(s, pid); }
    else { FaultKeepsUsed(s, pid); }
  }

  lemma PrmKeepsUsed(s: Sys)
    requires PrmCan(s)
    ensures var s' := PrmNext(s);
      s'.store.cache.used == s.store.cache.used && s'.blockSize == s.blockSize && s'.procs == s.procs
  {
    hide PrmAsserts, Victim, Add, Remove;
  }

  lemma StepKeepsOwned(s: Sys, step: Step)
    requires Inv(s) && Enabled(s, step) && UsedOwned(s.blockSize, s.procs, s.store.cache.used)
    ensures Next(s, step).Some?
    ensures var s' := Next(s, step).value; UsedOwned(s'.blockSize, s'.procs, s'.store.cache.used)
  {
    hide Inv, UsedOwned, ProcAsserts, PrmAsserts, ProcNext, PrmNext, ProcEnabled, PrmEnabled, DaemonEnabled, SetRange;
    StepSafe(s, step);
    var s' := Next(s, step).value;
    match step
    case Create(pid, start) => NewBlockOwned(s.blockSize, s.procs, s.store.cache.used, pid, start);
    case Advance(pid) =>
      if Dies(s, pid) {
        DeathIs(s, pid);
        BlockGoneOwned(s.blockSize, s.procs, s.store.cache.used, pid);
      } else {
        ProcKeepsUsed(s, pid);
        SameBlocksKeep(s.blockSize, s.procs, s'.procs, s.store.cache.used);
      }
    case PrmStep => PrmKeepsUsed(s);
    case DaemonStep =>
    case _ => SameBlocksKeep(s.blockSize, s.procs, s'.procs, s.store.cache.used);
  }

  lemma {:induction false} RunKeepsOwned(s: Sys, run: seq<Step>)
    requires Inv(s) && IsRun(s, run) && UsedOwned(s.blockSize, s.procs, s.store.cache.used)
    ensures After(s, run).Some?
    ensures var s' := After(s, run).value; UsedOwned(s'.blockSize, s'.procs, s'.store.cache.used)
    decreases |run|
  {
    hide Inv, Next, Enabled, UsedOwned;
    if run != [] {
      StepSafe(s, run[0]);
      StepKeepsOwned(s, run[0]);
      RunKeepsOwned(Next(s, run[0]).value, run[1..]);
    }
  }

  /** In every reachable state a disk page is in use exactly when it is in the block of a process that is not dead. */
  lemma UsedIffOwned(s: Sys, d: nat)
    requires Reachable(s) && d < |s.store.cache.used|
    ensures s.store.cache.used[d] <==> exists p :: InBlock(s.blockSize, s.procs, p, d)
  {
    hide Inv, After, IsRun;
    ReachableInv(s);
    var s0, run :| Initial(s0) && IsRun(s0, run) && After(s0, run) == Some(s);
    InitialInv(s0);
    RunKeepsOwned(s0, run);
    LiveBlocksUsed(s, d);
  }

  lemma LiveBlocksUsed(s: Sys, d: nat)
    requires Inv(s) && d < |s.store.cache.used|
    ensures forall p :: InBlock(s.blockSize, s.procs, p, d) ==> s.store.cache.used[d]
  {
  }

  // ---------------------------------------------------------------- the order of service

  /** The commands issued so far, in the order in which they are served. */
  function Issued(s: Sys): seq<nat> {
    s.work.served + (if s.prm.PrmIdle? then [] else [s.prm.cmd]) + s.work.queue
  }

  /** That order is the order of issue. */
  ghost predicate InIssueOrder(s: Sys) {
    |Issued(s)| == s.work.nextCmd && forall i :: 0 <= i < s.work.nextCmd ==> Issued(s)[i] == i
  }

  lemma ProcIssues(s: Sys, pid: nat)
    requires CanStep(s, pid)
    ensures var s' := ProcNext(s, pid);
      && s'.prm == s.prm
      && if s.procs[pid].pc.Faulting?
         then Issued(s') == Issued(s) + [s.work.nextCmd] && s'.work.nextCmd == s.work.nextCmd + 1
         else Issued(s') == Issued(s) && s'.work.nextCmd == s.work.nextCmd
  {
    hide ProcAsserts, AllocPage, FreePage, Touch, Resident, PatchWritten, PatchFrame, SetRange;
  }

  lemma PrmIssues(s: Sys)
    requires PrmCan(s)
    ensures Issued(PrmNext(s)) == Issued(s) && PrmNext(s).work.nextCmd == s.work.nextCmd
  {
    hide PrmAsserts, Victim, SyncTo, Load, Unmap, MapPage;
    if s.prm.PrmIdle? { assert s.work.queue == [s.work.queue[0]] + s.work.queue[1..]; }
  }

  lemma StepKeepsOrder(s: Sys, step: Step)
    requires Inv(s) && Enabled(s, step) && InIssueOrder(s)
    ensures Next(s, step).Some? && InIssueOrder(Next(s, step).value)
  {
    hide Inv, ProcAsserts, PrmAsserts, ProcNext, PrmNext, ProcEnabled, PrmEnabled, DaemonEnabled, SetRange;
    StepSafe(s, step);
    match step
    case Advance(pid) =>
      hide Issued;
      ProcIssues(s, pid);
    case PrmStep =>
      hide Issued;
      PrmIssues(s);
    case _ =>
      assert Issued(Next(s, step).value) == Issued(s);
  }

  lemma {:induction false} RunKeepsOrder(s: Sys, run: seq<Step>)
    requires Inv(s) && IsRun(s, run) && InIssueOrder(s)
    ensures After(s, run).Some? && InIssueOrder(After(s, run).value)
    decreases |run|
  {
    hide Inv, Next, Enabled, InIssueOrder;
    if run != [] {
      StepSafe(s, run[0]);
      StepKeepsOrder(s, run[0]);
      RunKeepsOrder(Next(s, run[0]).value, run[1..]);
    }
  }

  /** Faults are served in the order in which their commands were queued, none skipped and none twice. */
  lemma ServedInOrder(s: Sys)
    requires Reachable(s)
    ensures |s.work.served| <= s.work.nextCmd && forall i :: 0 <= i < |s.work.served| ==> s.work.served[i] == i
    ensures !s.prm.PrmIdle? ==> s.prm.cmd == |s.work.served|
    ensures var first := |s.work.served| + if s.prm.PrmIdle? then 0 else 1;
      && first + |s.work.queue| == s.work.nextCmd
      && forall i :: 0 <= i < |s.work.queue| ==> s.work.queue[i] == first + i
  {
    hide Inv, After, IsRun;
    var s0, run :| Initial(s0) && IsRun(s0, run) && After(s0, run) == Some(s);
    InitialInv(s0);
    RunKeepsOrder(s0, run);
    IssuedParts(s);
  }

  lemma IssuedParts(s: Sys)
    requires InIssueOrder(s)
    ensures |s.work.served| <= s.work.nextCmd && forall i :: 0 <= i < |s.work.served| ==> s.work.served[i] == i
    ensures !s.prm.PrmIdle? ==> s.prm.cmd == |s.work.served|
    ensures var first := |s.work.served| + if s.prm.PrmIdle? then 0 else 1;
      && first + |s.work.queue| == s.work.nextCmd
      && forall i :: 0 <= i < |s.work.queue| ==> s.work.queue[i] == first + i
  {
    var n, first := |s.work.served|, |s.work.served| + if s.prm.PrmIdle? then 0 else 1;
    assert forall i :: 0 <= i < n ==> Issued(s)[i] == s.work.served[i];
    assert !s.prm.PrmIdle? ==> Issued(s)[n] == s.prm.cmd;
    forall i | 0 <= i < |s.work.queue| ensures s.work.queue[i] == first + i {
      assert Issued(s)[first + i] == s.work.queue[i];
    }
  }

  // ---------------------------------------------------------------- references

  /** What has happened in a run: residency tests, those that succeeded, pages marked, counts zeroed. */
  datatype Tally = Tally(tests: nat, found: nat, marks: nat, zeroings: nat)

  ghost function TallyStep(t: Tally, s: Sys, step: Step): Tally {
    if !step.Advance? || step.pid >= |s.procs| then t
    else
      var pc := s.procs[step.pid].pc;
      if pc.Checking? then
        var found := Resident(s.store.cache.table, KeyOf(step.pid, pc.job));
        t.(tests := t.tests + 1, found := t.found + if found then 1 else 0)
      else if pc.Pinned? then t.(marks := t.marks + 1)
      else if pc.Zeroing? then t.(zeroings := t.zeroings + 1)
      else t
  }

  ghost function RunTally(t: Tally, s: Sys, run: seq<Step>): Tally
    requires IsRun(s, run)
    decreases |run|
  {
    if run == [] then t
    else if Next(s, run[0]).None? then TallyStep(t, s, run[0])
    else RunTally(TallyStep(t, s, run[0]), Next(s, run[0]).value, run[1..])
  }

  /** Between the marking of its page and the zeroing of the count, if it comes to that. */
  predicate Uncounted(pc: Pc) {
    pc.Marked? || pc.Copying? || pc.Counting? || pc.Zeroing?
  }

  function UncountedOf(procs: seq<Proc>): nat {
    if procs == [] then 0 else (if Uncounted(procs[0].pc) then 1 else 0) + UncountedOf(procs[1..])
  }

  lemma {:induction false} UncountedUpdate(procs: seq<Proc>, p: nat, x: Proc)
    requires p < |procs|
    ensures UncountedOf(procs[p := x]) + (if Uncounted(procs[p].pc) then 1 else 0) ==
      UncountedOf(procs) + if Uncounted(x.pc) then 1 else 0
    ensures (if Uncounted(procs[p].pc) then 1 else 0) <= UncountedOf(procs) <= |procs|
  {
    AtMostAll(procs[1..]);
    if p == 0 {
      assert procs[p := x][1..] == procs[1..];
    } else {
      assert procs[p := x][1..] == procs[1..][p - 1 := x];
      UncountedUpdate(procs[1..], p - 1, x);
    }
  }

  lemma AtMostAll(procs: seq<Proc>)
    ensures UncountedOf(procs) <= |procs|
  {
  }

  /**
   The counters are what the run adds up to. References not yet answered by an aging request stay below the
   frequency but for one for each process on its way to the test, and a zeroing answers no more than that many.
   With one process every zeroing answers exactly `agingFreq` references; with frequency 0 exactly one.
   */
  ghost predicate Counted(t: Tally, s: Sys) {
    var st := s.store.cache.stats;
    && st.nrefs == t.tests && st.hits == t.found
    && (st.agingFreq >= 1 ==> st.refCount + 1 <= st.agingFreq + UncountedOf(s.procs))
    && (st.agingFreq >= 1 ==> t.marks <= (st.agingFreq - 1 + |s.procs|) * t.zeroings + st.refCount)
    && (st.agingFreq == 0 ==> t.marks == t.zeroings + UncountedOf(s.procs))
    && (st.agingFreq >= 1 && |s.procs| == 1 ==>
          && t.marks == st.agingFreq * t.zeroings + st.refCount
          && (s.procs[0].pc.Zeroing? ==> st.refCount == st.agingFreq))
  }

  /** What a step of process `p` does to the counters. */
  ghost predicate CountsBy(s: Sys, p: nat, s': Sys)
    requires p < |s.procs|
  {
    var st, st', pc := s.store.cache.stats, s'.store.cache.stats, s.procs[p].pc;
    && |s'.procs| == |s.procs| && s'.procs == s.procs[p := s'.procs[p]]
    && st'.agingFreq == st.agingFreq
    && st'.nrefs == st.nrefs + (if pc.Checking? then 1 else 0)
    && st'.hits == st.hits + (if pc.Checking? && Resident(s.store.cache.table, KeyOf(p, pc.job)) then 1 else 0)
    && st'.refCount == (if pc.Zeroing? then 0 else st.refCount + if pc.Pinned? then 1 else 0)
  }

  lemma LifeCounts(s: Sys, p: nat)
    requires CanStep(s, p) && InLife(s.procs[p].pc)
    ensures CountsBy(s, p, LifeNext(s, p))
  {
    hide ProcAsserts, Add, Remove, Resident, SetRange;
  }

  lemma AccessCounts(s: Sys, p: nat)
    requires CanStep(s, p) && InAccess(s.procs[p].pc)
    ensures CountsBy(s, p, AccessNext(s, p))
  {
    hide ProcAsserts, Resident, PatchWritten, Patch, Reference;
  }

  lemma PinCountsBy(s: Sys, p: nat)
    requires CanStep(s, p) && (InPin(s.procs[p].pc) || InFault(s.procs[p].pc))
    ensures CountsBy(s, p, ProcNext(s, p))
  {
    hide ProcAsserts, Resident, LifeNext, AccessNext;
  }

  lemma CountingStep(s: Sys, p: nat)
    requires CanStep(s, p)
    ensures CountsBy(s, p, ProcNext(s, p))
  {
    hide ProcAsserts, LifeNext, AccessNext, PinNext, FaultNext, CountsBy;
    if InLife(s.procs[p].pc) { LifeCounts(s, p); }
    else if InAccess(s.procs[p].pc) { AccessCounts(s, p); }
    else { PinCountsBy(s, p); }
  }

  /** When a process enters and leaves the stretch between marking and zeroing. */
  lemma CountingMoves(s: Sys, p: nat)
    requires CanStep(s, p)
    ensures var s' := ProcNext(s, p);
      var st, pc := s.store.cache.stats, s.procs[p].pc;
      && p < |s'.procs|
      && (Uncounted(s'.procs[p].pc) <==>
            pc.Pinned? || pc.Marked? || pc.Copying? || (pc.Counting? && st.refCount >= st.agingFreq))
      && (s'.procs[p].pc.Zeroing? <==> pc.Counting? && st.refCount >= st.agingFreq)
  {
    hide ProcAsserts, Add, Remove, Resident, PatchWritten, PatchFrame, Patch, Reference, SetRange;
  }

  lemma ProcKeepsCounts(t: Tally, s: Sys, p: nat)
    requires CanStep(s, p) && Counted(t, s)
    ensures Counted(TallyStep(t, s, Advance(p)), ProcNext(s, p))
  {
    hide ProcNext, ProcAsserts, ProcEnabled, UncountedOf, Resident;
    CountingStep(s, p);
    CountingMoves(s, p);
    UncountedUpdate(s.procs, p, ProcNext(s, p).procs[p]);
    var st := s.store.cache.stats;
    OneMore(st.agingFreq, t.zeroings);
    if st.agingFreq >= 1 { OneMore(st.agingFreq - 1 + |s.procs|, t.zeroings); }
    if |s.procs| == 1 { OneProcess(s.procs); }
  }

  lemma OneMore(f: nat, z: nat)
    ensures f * (z + 1) == f * z + f
  {
  }

  lemma OneProcess(procs: seq<Proc>)
    requires |procs| == 1
    ensures UncountedOf(procs) == if Uncounted(procs[0].pc) then 1 else 0
  {
  }

  lemma PrmKeepsCounts(s: Sys)
    requires PrmCan(s)
    ensures PrmNext(s).procs == s.procs && PrmNext(s).store.cache.stats == s.store.cache.stats
  {
    hide PrmAsserts, Victim, Add, Remove;
  }

  /** The steps by which a process starts something leave it outside that stretch. */
  lemma StartKeepsCounts(t: Tally, s: Sys, step: Step)
    requires Enabled(s, step) && (step.Create? || step.Destroy? || step.Begin?) && Counted(t, s)
    ensures Next(s, step).Some? && Counted(TallyStep(t, s, step), Next(s, step).value)
  {
    hide UncountedOf, SetRange, Counted;
    var s' := Next(s, step).value;
    assert s'.procs == s.procs[step.pid := s'.procs[step.pid]];
    UncountedUpdate(s.procs, step.pid, s'.procs[step.pid]);
    SameCounts(t, s, s');
  }

  lemma StepKeepsCounts(t: Tally, s: Sys, step: Step)
    requires Inv(s) && Enabled(s, step) && Counted(t, s)
    ensures Next(s, step).Some? && Counted(TallyStep(t, s, step), Next(s, step).value)
  {
    hide Inv, Counted, ProcAsserts, PrmAsserts, ProcNext, PrmNext, ProcEnabled, PrmEnabled, DaemonEnabled, SetRange;
    StepSafe(s, step);
    match step
    case Advance(pid) => ProcKeepsCounts(t, s, pid);
    case PrmStep =>
      PrmKeepsCounts(s);
      SameCounts(t, s, Next(s, step).value);
    case DaemonStep => SameCounts(t, s, Next(s, step).value);
    case _ => StartKeepsCounts(t, s, step);
  }

  lemma SameCounts(t: Tally, s: Sys, s': Sys)
    requires Counted(t, s) && s'.store.cache.stats == s.store.cache.stats
    requires |s'.procs| == |s.procs| && UncountedOf(s'.procs) == UncountedOf(s.procs)
    requires |s.procs| == 1 && s'.procs[0].pc.Zeroing? ==> s.procs[0].pc.Zeroing?
    ensures Counted(t, s')
  {
  }

  lemma {:induction false} RunKeepsCounts(t: Tally, s: Sys, run: seq<Step>)
    requires Inv(s) && IsRun(s, run) && Counted(t, s)
    ensures After(s, run).Some? && Counted(RunTally(t, s, run), After(s, run).value)
    decreases |run|
  {
    hide Inv, Next, Enabled, Counted, TallyStep;
    if run != [] {
      StepSafe(s, run[0]);
      StepKeepsCounts(t, s, run[0]);
      RunKeepsCounts(TallyStep(t, s, run[0]), Next(s, run[0]).value, run[1..]);
    }
  }

  lemma {:induction false} NobodyUncounted(procs: seq<Proc>)
    requires forall p :: 0 <= p < |procs| ==> procs[p].pc.Dead?
    ensures UncountedOf(procs) == 0
  {
    if procs != [] { NobodyUncounted(procs[1..]); }
  }

  /** The accounting of concurrent runs, from every initial system. */
  lemma CountsAddUp(s0: Sys, run: seq<Step>)
    requires Initial(s0) && IsRun(s0, run)
    ensures After(s0, run).Some? && Counted(RunTally(Tally(0, 0, 0, 0), s0, run), After(s0, run).value)
  {
    InitialInv(s0);
    NobodyUncounted(s0.procs);
    hide Inv, After, IsRun, RunTally;
    RunKeepsCounts(Tally(0, 0, 0, 0), s0, run);
  }
}
