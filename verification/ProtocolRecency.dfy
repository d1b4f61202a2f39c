/**
 Ages and dirty bits in the step model: over every interleaving they are those of a log of mappings, marks and
 aging, and the PRM's victims are least recently used by it.
 */
module ProtocolRecency {
  import opened VmTypes
  import opened PageTable
  import opened Cache
  import opened Aging
  import opened Recency
  import opened Protocol
  import opened ProtocolInv
  import opened ProtocolProc
  import opened ProtocolSystem

  // ---------------------------------------------------------------- the log

  /** A page brought into memory, if there is a frame for it, starts a new history. */
  function MapLog(hs: Log, c: Cache, key: PageKey): Log {
    if c.table.free == [] then hs else HistoryStep(hs, MapOp(key))
  }

  /** The pass of the daemon reaches frame `i`: one more round for the page in it. */
  function SlotLog(hs: Log, c: Cache, i: nat): Log {
    if i < |c.table.slots| && c.table.slots[i].Held? && c.table.slots[i].key in hs
    then hs[c.table.slots[i].key := hs[c.table.slots[i].key].Rounded()]
    else hs
  }

  function ProcLog(hs: Log, s: Sys, pid: nat): Log
    requires pid < |s.procs|
  {
    match s.procs[pid].pc
    case MappingLocked(next) => MapLog(hs, s.store.cache, PageKey(pid, next))
    case Pinned(job) => HistoryStep(hs, RefOp(KeyOf(pid, job), job.WriteJob?))
    case _ => hs
  }

  /** The log after one step: it knows where the threads are and which page is in a frame, and looks at no age. */
  function StepLog(hs: Log, s: Sys, step: Step): Log {
    match step
    case Advance(pid) => if pid < |s.procs| then ProcLog(hs, s, pid) else hs
    case PrmStep =>
      if s.prm.MapTry? && s.prm.cmd in s.work.cmds then MapLog(hs, s.store.cache, s.work.cmds[s.prm.cmd].key) else hs
    case DaemonStep => if s.daemon.Passing? then SlotLog(hs, s.store.cache, s.daemon.i) else hs
    case _ => hs
  }

  ghost function RunLogOf(hs: Log, s: Sys, run: seq<Step>): Log
    requires IsRun(s, run)
    decreases |run|
  {
    if run == [] then hs
    else if Next(s, run[0]).None? then StepLog(hs, s, run[0])
    else RunLogOf(StepLog(hs, s, run[0]), Next(s, run[0]).value, run[1..])
  }

  // ---------------------------------------------------------------- every step follows it

  lemma MapFollows(c: Cache, hs: Log, key: PageKey)
    requires WellFormed(c.table) && !Resident(c.table, key) && Tracks(c.table, hs)
    ensures Tracks(MapPage(c, key).table, MapLog(hs, c, key))
  {
    hide WellFormed, Resident, Tracks, Add, HistoryStep;
    if c.table.free != [] { MapTracks(c.table, hs, key); }
  }

  lemma UnmapFollows(c: Cache, hs: Log, key: PageKey)
    requires WellFormed(c.table) && Tracks(c.table, hs)
    ensures Tracks(Unmap(c, key).table, hs)
  {
    hide WellFormed, Tracks, Remove;
    StepTracks(c.table, hs, UnmapOp(key));
  }

  lemma SlotFollows(c: Cache, hs: Log, i: nat)
    requires WellFormed(c.table) && Tracks(c.table, hs) && i < |c.table.slots|
    ensures Tracks(AgeSlot(c, i).table, SlotLog(hs, c, i))
  {
    if c.table.slots[i].Held? {
      var h := hs[c.table.slots[i].key];
      assert h.Rounded().rounds[1..] == h.rounds;
    }
  }

  /** What the steps of a process do to the table. */
  lemma ProcTable(s: Sys, pid: nat)
    requires CanStep(s, pid)
    ensures var c, t' := s.store.cache, ProcNext(s, pid).store.cache.table;
      match s.procs[pid].pc
      case MappingLocked(next) =>
        && WellFormed(c.table) && !Resident(c.table, PageKey(pid, next)) && t' == MapPage(c, PageKey(pid, next)).table
      case UnmappingLocked(next) => t' == Unmap(c, PageKey(pid, next)).table
      case Pinned(job) =>
        Resident(c.table, KeyOf(pid, job)) && t' == Reference(c.table, KeyOf(pid, job), job.WriteJob?)
      case _ => t' == c.table
  {
    hide WellFormed, Resident, Add, Remove, Reference, PatchWritten, Patch, SetRange;
  }

  lemma ProcFollows(s: Sys, hs: Log, pid: nat)
    requires CanStep(s, pid) && WellFormed(s.store.cache.table) && Tracks(s.store.cache.table, hs)
    ensures Tracks(ProcNext(s, pid).store.cache.table, ProcLog(hs, s, pid))
  {
    hide WellFormed, Resident, Tracks, HistoryStep, ProcNext, ProcAsserts, ProcEnabled, MapLog, MapPage, Unmap,
      Reference;
    ProcTable(s, pid);
    var c := s.store.cache;
    match s.procs[pid].pc
    case MappingLocked(next) => MapFollows(c, hs, PageKey(pid, next));
    case UnmappingLocked(next) => UnmapFollows(c, hs, PageKey(pid, next));
    case Pinned(job) => StepTracks(c.table, hs, RefOp(KeyOf(pid, job), job.WriteJob?));
    case _ =>
  }

  /** What the steps of the PRM do to the table. */
  lemma PrmTable(s: Sys)
    requires PrmCan(s)
    ensures var c, t' := s.store.cache, PrmNext(s).store.cache.table;
      if s.prm.MapTry? then
        var key := s.work.cmds[s.prm.cmd].key;
        WellFormed(c.table) && !Resident(c.table, key) && t' == MapPage(c, key).table
      else if s.prm.Synced? then t' == Unmap(c, s.prm.victim).table
      else t' == c.table
  {
    hide WellFormed, Resident, Add, Remove, Victim;
  }

  lemma PrmFollows(s: Sys, hs: Log)
    requires PrmCan(s) && WellFormed(s.store.cache.table) && Tracks(s.store.cache.table, hs)
    ensures Tracks(PrmNext(s).store.cache.table, StepLog(hs, s, PrmStep))
  {
    PrmTable(s);
    if s.prm.MapTry? { PrmHasCommand(s); }
    hide WellFormed, Resident, Tracks, HistoryStep, PrmNext, PrmAsserts, PrmEnabled, MapLog, MapPage, Unmap;
    if s.prm.MapTry? { MapFollows(s.store.cache, hs, s.work.cmds[s.prm.cmd].key); }
    if s.prm.Synced? { UnmapFollows(s.store.cache, hs, s.prm.victim); }
  }

  lemma PrmHasCommand(s: Sys)
    requires PrmCan(s) && s.prm.MapTry?
    ensures s.prm.cmd in s.work.cmds
  {
  }

  lemma TableIsWellFormed(s: Sys)
    requires Inv(s)
    ensures WellFormed(s.store.cache.table)
    ensures s.daemon.Passing? ==> s.daemon.i <= |s.store.cache.table.slots|
  {
  }

  lemma StepFollows(s: Sys, hs: Log, step: Step)
    requires Inv(s) && Enabled(s, step) && Tracks(s.store.cache.table, hs)
    ensures Next(s, step).Some? && Tracks(Next(s, step).value.store.cache.table, StepLog(hs, s, step))
  {
    hide Inv, Tracks, WellFormed, ProcAsserts, PrmAsserts, ProcNext, PrmNext, ProcEnabled, PrmEnabled, ProcLog;
    hide HistoryStep, SlotLog, MapLog, AgeSlot, SetRange;
    StepSafe(s, step);
    TableIsWellFormed(s);
    match step
    case Advance(pid) => ProcFollows(s, hs, pid);
    case PrmStep => PrmFollows(s, hs);
    case DaemonStep =>
      if s.daemon.Passing? {
        if s.daemon.i < |s.store.cache.table.slots| { SlotFollows(s.store.cache, hs, s.daemon.i); }
        else { PastTheEnd(hs, s.store.cache, s.daemon.i); }
      }
    case _ =>
  }

  lemma PastTheEnd(hs: Log, c: Cache, i: nat)
    requires i >= |c.table.slots|
    ensures SlotLog(hs, c, i) == hs
  {
  }

  lemma {:induction false} RunFollows(s: Sys, hs: Log, run: seq<Step>)
    requires Inv(s) && IsRun(s, run) && Tracks(s.store.cache.table, hs)
    ensures After(s, run).Some? && Tracks(After(s, run).value.store.cache.table, RunLogOf(hs, s, run))
    ensures Inv(After(s, run).value)
    decreases |run|
  {
    hide Inv, Next, Enabled, Tracks, StepLog;
    if run != [] {
      StepSafe(s, run[0]);
      StepFollows(s, hs, run[0]);
      RunFollows(Next(s, run[0]).value, StepLog(hs, s, run[0]), run[1..]);
    }
  }

  /**
   Over every interleaving, each resident page's age, reference bit and dirty bit are those of the log of the
   run; the victim that the PRM then chooses is least recently used by that log; and the PRM writes the victim's
   disk page exactly when the log has the victim written since it was mapped.
   */
  lemma AgesFollowTheRun(s0: Sys, run: seq<Step>)
    requires Initial(s0) && IsRun(s0, run)
    ensures After(s0, run).Some?
    ensures var s, hs := After(s0, run).value, RunLogOf(map[], s0, run);
      && Tracks(s.store.cache.table, hs)
      && (s.prm.Choosing? ==>
            && PrmAsserts(s) && PrmNext(s).prm.Chosen?
            && LeastRecentlyUsed(s.store.cache.table, hs, PrmNext(s).prm.victim))
      && (s.prm.Chosen? ==> PrmAsserts(s) && WritesBackByLog(s.store.cache, hs, s.prm.victim, PrmNext(s).store.cache))
  {
    InitialInv(s0);
    NothingToTrack(s0);
    hide Inv, Initial, After, IsRun, RunLogOf, Tracks, LeastRecentlyUsed, PrmAsserts, PrmNext;
    RunFollows(s0, map[], run);
    var s := After(s0, run).value;
    if s.prm.Choosing? {
      PrmAssertsHold(s);
      ChoiceByLog(s, RunLogOf(map[], s0, run));
    }
    if s.prm.Chosen? {
      PrmAssertsHold(s);
      WriteByLog(s, RunLogOf(map[], s0, run));
    }
  }

  /** From `c` to `d` the disk page of `v` gets the contents of its frame if `v` is logged as written. */
  ghost predicate WritesBackByLog(c: Cache, hs: Log, v: PageKey, d: Cache) {
    && v in hs && v in c.backing && 0 <= c.backing[v] < |c.disk| && 0 <= FrameOf(c.table, v) < |c.mem|
    && d == c.(disk := if hs[v].written then c.disk[c.backing[v] := c.mem[FrameOf(c.table, v)]] else c.disk)
  }

  lemma WriteByLog(s: Sys, hs: Log)
    requires Inv(s) && s.prm.Chosen? && PrmAsserts(s) && Tracks(s.store.cache.table, hs)
    ensures WritesBackByLog(s.store.cache, hs, s.prm.victim, PrmNext(s).store.cache)
  {
    hide Inv, Valid, WellFormed, Resident, Tracks;
    EvictWritesByLog(s.store.cache, hs, s.prm.victim);
  }

  lemma NothingToTrack(s: Sys)
    requires Initial(s)
    ensures Tracks(s.store.cache.table, map[])
  {
  }

  lemma ChoiceByLog(s: Sys, hs: Log)
    requires Inv(s) && s.prm.Choosing? && PrmAsserts(s) && Tracks(s.store.cache.table, hs)
    ensures PrmNext(s).prm.Chosen? && LeastRecentlyUsed(s.store.cache.table, hs, PrmNext(s).prm.victim)
  {
    StoreIsValid(s);
    hide Inv, Valid, WellFormed, Resident, Tracks, LeastRecentlyUsed, Victim;
    VictimByLog(s.store.cache, hs, s.work.cmds[s.prm.cmd].key);
  }

  lemma StoreIsValid(s: Sys)
    requires Inv(s)
    ensures Valid(s.store.cache)
  {
  }
}
