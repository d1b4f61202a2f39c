/**
 The concurrent system as interleaved steps: one owner thread per process, the thread of the page
 replacement manager (PRM) and the aging daemon. They meet at the MMU's read/write lock, the command
 queue, the container lock and the daemon's mutex. The memory operations are those of Cache.dfy.

 A critical section that waits for nothing (the queue's, the completion flag's, the counters') is one
 step. A thread in a timed wait may wake at any time, so waiting for a flag is a step enabled by it.
 */
module Protocol {
  import opened VmTypes
  import opened PageTable
  import opened Cache

  datatype Thread = ProcT(pid: nat) | PrmT | DaemonT

  /** One call of mmu_read or mmu_write by a process on one of its pages. */
  datatype Job =
    | ReadJob(page: nat, off: nat, n: nat)
    | WriteJob(page: nat, off: nat, data: seq<Byte>)
  {
    function Count(): nat {
      if ReadJob? then n else |data|
    }
  }

  /** Where a process's owner thread is. */
  datatype Pc =
    | Dead
    // init_process: maps pages 0, 1, ... under the container lock
    | Mapping(next: nat)
    | MappingLocked(next: nat)
    | Idle
    // mmu_read and mmu_write
    | Entering(job: Job)
    | Checking(job: Job)
    | Missing(job: Job)
    | Faulting(job: Job)
    | Waiting(job: Job, cmd: nat)
    | Woken(job: Job, cmd: nat)
    | Reentering(job: Job)
    | Rechecking(job: Job)
    | Pinned(job: Job)
    | Marked(job: Job)
    | Copying(job: Job, frame: nat, i: nat, buf: seq<Byte>)
    // mmu_age_pages_if_needed
    | Counting
    | Zeroing
    | Requesting
    | Awaiting(ticket: nat)
    // process_dealloc: unmaps pages 0, 1, ... under the container lock
    | Unmapping(next: nat)
    | UnmappingLocked(next: nat)

  /** A process slot; `start` is the first disk page of its block. */
  datatype Proc = Proc(pc: Pc, start: nat)

  /** Where the PRM thread is with the command it took off the queue. */
  datatype Prm =
    | PrmIdle
    | Popped(cmd: nat)
    | MapTry(cmd: nat, tries: nat)
    | Choosing(cmd: nat, tries: nat)
    | Chosen(cmd: nat, tries: nat, victim: PageKey)
    | Synced(cmd: nat, tries: nat, victim: PageKey)
    | Mapped(cmd: nat)
    | Loaded(cmd: nat)
    | Completing(cmd: nat)

  /** Where the aging daemon is; `i` is the next table entry it ages. */
  datatype Daemon = DaemonIdle | Holding | Passing(i: nat) | Passed | Finishing

  datatype Locks = Locks(container: Option<nat>, readers: set<Thread>, writer: Option<Thread>,
    daemonMutex: Option<Thread>)

  datatype Command = Command(key: PageKey, done: bool)

  /** `cmds` are the allocated commands; `served` records the commands completed, in order. */
  datatype Work = Work(queue: seq<nat>, cmds: map<nat, Command>, nextCmd: nat, served: seq<nat>)

  /** `flat` records what flat memory would hold. */
  datatype Store = Store(cache: Cache, flat: Flat)

  /** `started` and `finished` count aging passes; `before` is the table as the current pass found it. */
  datatype Aging = Aging(shouldUpdate: bool, doneUpdating: bool, started: nat, finished: nat, before: seq<Slot>)

  datatype Sys = Sys(
    blockSize: nat,
    procs: seq<Proc>,
    prm: Prm,
    daemon: Daemon,
    locks: Locks,
    work: Work,
    store: Store,
    aging: Aging)

  datatype Step =
    | Create(pid: nat, start: nat)
    | Destroy(pid: nat)
    | Begin(pid: nat, job: Job)
    | Advance(pid: nat)
    | PrmStep
    | DaemonStep

  // ---------------------------------------------------------------- when a step can be taken

  predicate CanRead(l: Locks) {
    l.writer == None
  }

  predicate CanWrite(l: Locks) {
    l.writer == None && l.readers == {}
  }

  predicate ProcEnabled(s: Sys, pid: nat)
    requires pid < |s.procs|
  {
    match s.procs[pid].pc
    case Dead => false
    case Idle => false
    case Mapping(next) => next >= s.blockSize || CanWrite(s.locks)
    case Unmapping(next) => next >= s.blockSize || CanWrite(s.locks)
    case Entering(_) => CanRead(s.locks)
    case Reentering(_) => CanRead(s.locks)
    case Waiting(_, cmd) => cmd !in s.work.cmds || s.work.cmds[cmd].done
    case Requesting => s.locks.daemonMutex == None
    case Awaiting(_) => s.locks.daemonMutex == None && s.aging.doneUpdating
    case _ => true
  }

  predicate PrmEnabled(s: Sys) {
    match s.prm
    case PrmIdle => s.work.queue != []
    case Popped(_) => CanWrite(s.locks)
    case _ => true
  }

  predicate DaemonEnabled(s: Sys) {
    match s.daemon
    case DaemonIdle => s.locks.daemonMutex == None && s.aging.shouldUpdate
    case Holding => CanRead(s.locks)
    case _ => true
  }

  predicate InPage(job: Job, blockSize: nat, pageSize: nat) {
    job.page < blockSize && job.off + job.Count() <= pageSize
  }

  predicate Enabled(s: Sys, step: Step) {
    match step
    case Create(pid, start) =>
      pid < |s.procs| && s.procs[pid].pc.Dead? && s.locks.container == None
      && ClearRange(s.store.cache.used, start, s.blockSize)
    case Destroy(pid) => pid < |s.procs| && s.procs[pid].pc.Idle? && s.locks.container == None
    case Begin(pid, job) =>
      pid < |s.procs| && s.procs[pid].pc.Idle? && InPage(job, s.blockSize, s.store.cache.pageSize)
    case Advance(pid) => pid < |s.procs| && ProcEnabled(s, pid)
    case PrmStep => PrmEnabled(s)
    case DaemonStep => DaemonEnabled(s)
  }

  // ---------------------------------------------------------------- what the source asserts or relies on

  /** The page process `pid` works on. */
  function KeyOf(pid: nat, job: Job): PageKey {
    PageKey(pid, job.page)
  }

  ghost predicate ProcAsserts(s: Sys, pid: nat)
    requires pid < |s.procs|
  {
    var c := s.store.cache;
    match s.procs[pid].pc
    case MappingLocked(next) =>
      // mmu_map_page: not resident; mmu_alloc_page: not allocated
      && WellFormed(c.table) && !Resident(c.table, PageKey(pid, next)) && PageKey(pid, next) !in c.backing
    case UnmappingLocked(next) => PageKey(pid, next) in c.backing
    case Unmapping(next) =>
      // free_page: every page of the block is allocated
      s.procs[pid].start + s.blockSize <= |c.used|
      && forall d :: s.procs[pid].start <= d < s.procs[pid].start + s.blockSize ==> c.used[d]
    case Waiting(_, cmd) => cmd in s.work.cmds
    case Woken(_, cmd) => cmd in s.work.cmds
    case Pinned(job) => Resident(c.table, KeyOf(pid, job))
    case Marked(job) => Resident(c.table, KeyOf(pid, job))
    case Copying(job, frame, i, _) =>
      frame < |c.mem| && (i < job.Count() ==> job.off + i < |c.mem[frame]| && KeyOf(pid, job) in s.store.flat)
    case _ => true
  }

  /** The command in service is allocated, its page has a disk page, and the map steps find it absent. */
  ghost predicate PrmAsserts(s: Sys) {
    var c := s.store.cache;
    s.prm.PrmIdle? || (
      && s.prm.cmd in s.work.cmds
      && var key := s.work.cmds[s.prm.cmd].key;
      match s.prm
      case MapTry(_, _) => WellFormed(c.table) && !Resident(c.table, key)
      case Choosing(_, _) => WellFormed(c.table) && c.table.free == [] && !Resident(c.table, key)
      case Chosen(_, _, v) => Valid(c) && Resident(c.table, v)
      case Synced(_, _, v) => Resident(c.table, v)
      case Mapped(_) => Valid(c) && Resident(c.table, key) && key in c.backing
      case _ => true)
  }

  ghost predicate Asserts(s: Sys, step: Step)
    requires Enabled(s, step)
  {
    match step
    case Advance(pid) => ProcAsserts(s, pid)
    case PrmStep => PrmAsserts(s)
    case DaemonStep => s.daemon.Passing? ==> s.daemon.i <= |s.store.cache.table.slots|
    case _ => true
  }

  // ---------------------------------------------------------------- the steps

  function At(s: Sys, pid: nat, pc: Pc): Sys
    requires pid < |s.procs|
  {
    s.(procs := s.procs[pid := s.procs[pid].(pc := pc)])
  }

  function EnterRead(l: Locks, t: Thread): Locks {
    l.(readers := l.readers + {t})
  }

  function LeaveRead(l: Locks, t: Thread): Locks {
    l.(readers := l.readers - {t})
  }

  function CountRef(c: Cache, hit: bool): Cache {
    c.(stats := c.stats.(nrefs := c.stats.nrefs + 1, hits := c.stats.hits + if hit then 1 else 0))
  }

  /** Copy byte `i` of a job: into the caller's buffer, or into the frame. */
  ghost function CopyByte(s: Sys, pid: nat): Sys
    requires pid < |s.procs| && s.procs[pid].pc.Copying? && ProcAsserts(s, pid)
    requires s.procs[pid].pc.i < s.procs[pid].pc.job.Count()
  {
    var Copying(job, frame, i, buf) := s.procs[pid].pc;
    var Store(c, w) := s.store;
    if job.ReadJob? then
      At(s, pid, Copying(job, frame, i + 1, buf + [c.mem[frame][job.off + i]]))
    else
      var key := KeyOf(pid, job);
      At(s, pid, Copying(job, frame, i + 1, buf)).(store :=
        Store(PatchFrame(c, frame, job.off + i, [job.data[i]]),
          w[key := PatchWritten(w[key], job.off + i, [job.data[i]])]))
  }

  predicate InLife(pc: Pc) {
    pc.Mapping? || pc.MappingLocked? || pc.Unmapping? || pc.UnmappingLocked?
  }

  predicate InPin(pc: Pc) {
    pc.Entering? || pc.Checking? || pc.Missing? || pc.Reentering? || pc.Rechecking?
  }

  predicate InFault(pc: Pc) {
    pc.Faulting? || pc.Waiting? || pc.Woken?
  }

  predicate InAccess(pc: Pc) {
    pc.Pinned? || pc.Marked? || pc.Copying? || pc.Counting? || pc.Zeroing? || pc.Requesting? || pc.Awaiting?
  }

  /** Steps of init_process and process_dealloc. */
  ghost function LifeNext(s: Sys, pid: nat): Sys
    requires pid < |s.procs| && ProcEnabled(s, pid) && ProcAsserts(s, pid) && InLife(s.procs[pid].pc)
  {
    var c := s.store.cache;
    match s.procs[pid].pc
    case Mapping(next) =>
      if next >= s.blockSize
      then At(s, pid, Idle).(locks := s.locks.(container := None))
      else At(s, pid, MappingLocked(next)).(locks := s.locks.(writer := Some(ProcT(pid))))
    case MappingLocked(next) =>
      var key := PageKey(pid, next);
      At(s, pid, Mapping(next + 1)).(
        locks := s.locks.(writer := None),
        store := Store(AllocPage(c, key, s.procs[pid].start + next), s.store.flat[key := map[]]))
    case Unmapping(next) =>
      if next >= s.blockSize
      then At(s, pid, Dead).(
        locks := s.locks.(container := None),
        store := s.store.(cache := c.(used := SetRange(c.used, s.procs[pid].start, s.blockSize, false))))
      else At(s, pid, UnmappingLocked(next)).(locks := s.locks.(writer := Some(ProcT(pid))))
    case UnmappingLocked(next) =>
      var key := PageKey(pid, next);
      At(s, pid, Unmapping(next + 1)).(
        locks := s.locks.(writer := None),
        store := Store(FreePage(c, key), s.store.flat - {key}))
  }

  /** Steps of mmu_pin_page, up to the residency test that succeeds. */
  ghost function PinNext(s: Sys, pid: nat): Sys
    requires pid < |s.procs| && ProcEnabled(s, pid) && ProcAsserts(s, pid) && InPin(s.procs[pid].pc)
  {
    var c := s.store.cache;
    match s.procs[pid].pc
    case Entering(job) => At(s, pid, Checking(job)).(locks := EnterRead(s.locks, ProcT(pid)))
    case Checking(job) =>
      var hit := Resident(c.table, KeyOf(pid, job));
      At(s, pid, if hit then Pinned(job) else Missing(job)).(store := s.store.(cache := CountRef(c, hit)))
    case Missing(job) => At(s, pid, Faulting(job)).(locks := LeaveRead(s.locks, ProcT(pid)))
    case Reentering(job) => At(s, pid, Rechecking(job)).(locks := EnterRead(s.locks, ProcT(pid)))
    case Rechecking(job) => At(s, pid, if Resident(c.table, KeyOf(pid, job)) then Pinned(job) else Missing(job))
  }

  /** Steps of prm_pagefault: queue a command, wait for it, free it. */
  ghost function FaultNext(s: Sys, pid: nat): Sys
    requires pid < |s.procs| && ProcEnabled(s, pid) && ProcAsserts(s, pid) && InFault(s.procs[pid].pc)
  {
    match s.procs[pid].pc
    case Faulting(job) =>
      var id := s.work.nextCmd;
      At(s, pid, Waiting(job, id)).(work := s.work.(
        queue := s.work.queue + [id],
        cmds := s.work.cmds[id := Command(KeyOf(pid, job), false)],
        nextCmd := id + 1))
    case Waiting(job, cmd) => At(s, pid, Woken(job, cmd))
    case Woken(job, cmd) => At(s, pid, Reentering(job)).(work := s.work.(cmds := s.work.cmds - {cmd}))
  }

  /** Steps of the rest of mmu_read and mmu_write, and of mmu_age_pages_if_needed. */
  ghost function AccessNext(s: Sys, pid: nat): Sys
    requires pid < |s.procs| && ProcEnabled(s, pid) && ProcAsserts(s, pid)
    requires InAccess(s.procs[pid].pc)
  {
    var c := s.store.cache;
    match s.procs[pid].pc
    case Pinned(job) =>
      At(s, pid, Marked(job)).(store := s.store.(cache := Touch(c, KeyOf(pid, job), job.WriteJob?)))
    case Marked(job) => At(s, pid, Copying(job, FrameOf(c.table, KeyOf(pid, job)), 0, []))
    case Copying(job, frame, i, buf) =>
      if i < job.Count() then CopyByte(s, pid)
      else At(s, pid, Counting).(locks := LeaveRead(s.locks, ProcT(pid)))
    case Counting => At(s, pid, if c.stats.refCount >= c.stats.agingFreq then Zeroing else Idle)
    case Zeroing => At(s, pid, Requesting).(store := s.store.(cache := c.(stats := c.stats.(refCount := 0))))
    case Requesting =>
      At(s, pid, Awaiting(s.aging.started)).(aging := s.aging.(doneUpdating := false, shouldUpdate := true))
    case Awaiting(_) => At(s, pid, Idle)
  }

  ghost function ProcNext(s: Sys, pid: nat): Sys
    requires pid < |s.procs| && ProcEnabled(s, pid) && ProcAsserts(s, pid)
  {
    if InLife(s.procs[pid].pc) then LifeNext(s, pid)
    else if InPin(s.procs[pid].pc) then PinNext(s, pid)
    else if InFault(s.procs[pid].pc) then FaultNext(s, pid)
    else AccessNext(s, pid)
  }

  ghost function PrmNext(s: Sys): Sys
    requires PrmEnabled(s) && PrmAsserts(s)
  {
    var c := s.store.cache;
    match s.prm
    case PrmIdle => s.(prm := Popped(s.work.queue[0]), work := s.work.(queue := s.work.queue[1..]))
    case Popped(cmd) => s.(prm := MapTry(cmd, 0), locks := s.locks.(writer := Some(PrmT)))
    case MapTry(cmd, tries) =>
      if c.table.free == [] then s.(prm := Choosing(cmd, tries))
      else s.(prm := Mapped(cmd), store := s.store.(cache := MapPage(c, s.work.cmds[cmd].key)))
    case Choosing(cmd, tries) => s.(prm := Chosen(cmd, tries, Victim(c, s.work.cmds[cmd].key)))
    case Chosen(cmd, tries, v) => s.(prm := Synced(cmd, tries, v), store := s.store.(cache := SyncTo(c, v)))
    case Synced(cmd, tries, v) => s.(prm := MapTry(cmd, tries + 1), store := s.store.(cache := Unmap(c, v)))
    case Mapped(cmd) => s.(prm := Loaded(cmd), store := s.store.(cache := Load(c, s.work.cmds[cmd].key)))
    case Loaded(cmd) => s.(prm := Completing(cmd), locks := s.locks.(writer := None))
    case Completing(cmd) =>
      s.(prm := PrmIdle, work := s.work.(
        cmds := s.work.cmds[cmd := s.work.cmds[cmd].(done := true)],
        served := s.work.served + [cmd]))
  }

  function AgeSlot(c: Cache, i: nat): Cache
    requires i < |c.table.slots|
  {
    c.(table := c.table.(slots := c.table.slots[i := Aged(c.table.slots[i])]))
  }

  function DaemonNext(s: Sys): Sys
    requires DaemonEnabled(s)
    requires s.daemon.Passing? ==> s.daemon.i <= |s.store.cache.table.slots|
  {
    var c := s.store.cache;
    match s.daemon
    case DaemonIdle =>
      s.(daemon := Holding, locks := s.locks.(daemonMutex := Some(DaemonT)),
        aging := s.aging.(started := s.aging.started + 1))
    case Holding =>
      s.(daemon := Passing(0), locks := EnterRead(s.locks, DaemonT), aging := s.aging.(before := c.table.slots))
    case Passing(i) =>
      if i < |c.table.slots|
      then s.(daemon := Passing(i + 1), store := s.store.(cache := AgeSlot(c, i)))
      else s.(daemon := Passed)
    case Passed => s.(daemon := Finishing, locks := LeaveRead(s.locks, DaemonT))
    case Finishing =>
      s.(daemon := DaemonIdle,
         locks := s.locks.(daemonMutex := None),
         aging := s.aging.(shouldUpdate := false, doneUpdating := true, finished := s.aging.finished + 1))
  }

  /** The state after a step, or None when an assertion of the source fails. */
  ghost function Next(s: Sys, step: Step): Option<Sys>
    requires Enabled(s, step)
  {
    if !Asserts(s, step) then None
    else match step
      case Create(pid, start) =>
        Some(s.(procs := s.procs[pid := Proc(Mapping(0), start)],
                locks := s.locks.(container := Some(pid)),
                store := s.store.(cache := s.store.cache.(used := SetRange(s.store.cache.used, start, s.blockSize,
                  true)))))
      case Destroy(pid) => Some(At(s, pid, Unmapping(0)).(locks := s.locks.(container := Some(pid))))
      case Begin(pid, job) => Some(At(s, pid, Entering(job)))
      case Advance(pid) => Some(ProcNext(s, pid))
      case PrmStep => Some(PrmNext(s))
      case DaemonStep => Some(DaemonNext(s))
  }
}
