/** The invariant of the concurrent system, kept by every step; so no assertion of the source fails. */
module ProtocolInv {
  import opened VmTypes
  import opened PageTable
  import opened Cache
  import opened Protocol

  // ---------------------------------------------------------------- who holds which lock

  predicate HoldsRead(pc: Pc) {
    pc.Checking? || pc.Missing? || pc.Rechecking? || pc.Pinned? || pc.Marked? || pc.Copying?
  }

  predicate HoldsWrite(pc: Pc) {
    pc.MappingLocked? || pc.UnmappingLocked?
  }

  predicate HoldsContainer(pc: Pc) {
    pc.Mapping? || pc.MappingLocked? || pc.Unmapping? || pc.UnmappingLocked?
  }

  predicate PrmWrites(prm: Prm) {
    !prm.PrmIdle? && !prm.Popped? && !prm.Completing?
  }

  predicate DaemonReads(d: Daemon) {
    d.Passing? || d.Passed?
  }

  ghost predicate LockInv(procs: seq<Proc>, prm: Prm, daemon: Daemon, l: Locks) {
    && (forall p: nat :: ProcT(p) in l.readers <==> p < |procs| && HoldsRead(procs[p].pc))
    && (DaemonT in l.readers <==> DaemonReads(daemon))
    && PrmT !in l.readers
    && (forall p :: 0 <= p < |procs| ==> (HoldsWrite(procs[p].pc) <==> l.writer == Some(ProcT(p))))
    && (l.writer.Some? && l.writer.value.ProcT? ==> l.writer.value.pid < |procs|)
    && (l.writer == Some(PrmT) <==> PrmWrites(prm))
    && l.writer != Some(DaemonT)
    && (l.writer.Some? ==> l.readers == {})
    && (forall p :: 0 <= p < |procs| ==> (HoldsContainer(procs[p].pc) <==> l.container == Some(p)))
    && (l.container.Some? ==> l.container.value < |procs|)
    && l.daemonMutex == (if daemon.DaemonIdle? then None else Some(DaemonT))
  }

  // ---------------------------------------------------------------- who owns which pages

  /** Process at `pc` has page `i` of its block allocated. */
  predicate Owns(pc: Pc, blockSize: nat, i: nat) {
    match pc
    case Dead => false
    case Mapping(n) => i < n && i < blockSize
    case MappingLocked(n) => i < n && i < blockSize
    case Unmapping(n) => n <= i < blockSize
    case UnmappingLocked(n) => n <= i < blockSize
    case _ => i < blockSize
  }

  predicate Bounded(pc: Pc, blockSize: nat) {
    match pc
    case Mapping(n) => n <= blockSize
    case MappingLocked(n) => n < blockSize
    case Unmapping(n) => n <= blockSize
    case UnmappingLocked(n) => n < blockSize
    case _ => true
  }

  /** Every process that is not dead has a block of used disk pages of its own. */
  ghost predicate BlocksInv(blockSize: nat, procs: seq<Proc>, used: seq<bool>) {
    && (forall p :: 0 <= p < |procs| && !procs[p].pc.Dead? ==> procs[p].start + blockSize <= |used|)
    && (forall p, d :: 0 <= p < |procs| && !procs[p].pc.Dead? && procs[p].start <= d < procs[p].start + blockSize
          ==> used[d])
    && (forall p, q :: 0 <= p < |procs| && 0 <= q < |procs| && p != q && !procs[p].pc.Dead? && !procs[q].pc.Dead?
          ==> procs[p].start + blockSize <= procs[q].start || procs[q].start + blockSize <= procs[p].start)
  }

  /** The disk map binds exactly the owned pages, consecutively, to their owner's block. */
  ghost predicate OwnInv(blockSize: nat, procs: seq<Proc>, backing: map<PageKey, int>) {
    && (forall p :: 0 <= p < |procs| ==> Bounded(procs[p].pc, blockSize))
    && (forall k :: k in backing ==>
          k.pid < |procs| && Owns(procs[k.pid].pc, blockSize, k.page) && backing[k] == procs[k.pid].start + k.page)
    && (forall k: PageKey :: k.pid < |procs| && Owns(procs[k.pid].pc, blockSize, k.page) ==> k in backing)
  }

  // ---------------------------------------------------------------- fault commands

  predicate HasCmd(pc: Pc, cmd: nat) {
    (pc.Waiting? || pc.Woken?) && pc.cmd == cmd
  }

  predicate InService(prm: Prm, cmd: nat) {
    !prm.PrmIdle? && prm.cmd == cmd
  }

  /** The PRM has bound the command's page to a frame. */
  predicate PastMap(prm: Prm, cmd: nat) {
    (prm.Mapped? || prm.Loaded? || prm.Completing?) && prm.cmd == cmd
  }

  ghost predicate QueueInv(prm: Prm, w: Work) {
    && Distinct(w.queue)
    && (forall i :: 0 <= i < |w.queue| ==> w.queue[i] in w.cmds && !w.cmds[w.queue[i]].done)
    && (!prm.PrmIdle? ==> prm.cmd in w.cmds && !w.cmds[prm.cmd].done && prm.cmd !in w.queue)
    && (forall c :: c in w.cmds && !w.cmds[c].done ==> c in w.queue || InService(prm, c))
  }

  /** Every command ever issued is queued, in service, or served; and is served once. */
  ghost predicate ServedInv(prm: Prm, w: Work) {
    && Distinct(w.served)
    && (forall c :: c in w.served ==> c < w.nextCmd && (c in w.cmds ==> w.cmds[c].done))
    && (forall c :: 0 <= c < w.nextCmd ==> c in w.served || c in w.queue || InService(prm, c))
  }

  /** An allocated command belongs to the one process that waits for it. */
  ghost predicate OwnerInv(procs: seq<Proc>, w: Work) {
    && (forall p :: 0 <= p < |procs| && (procs[p].pc.Waiting? || procs[p].pc.Woken?) ==>
          var pc := procs[p].pc;
          && pc.cmd in w.cmds && w.cmds[pc.cmd].key == KeyOf(p, pc.job)
          && (pc.Woken? ==> w.cmds[pc.cmd].done))
    && (forall c :: c in w.cmds ==>
          c < w.nextCmd && w.cmds[c].key.pid < |procs| && HasCmd(procs[w.cmds[c].key.pid].pc, c))
  }

  /**
   A page that missed is absent; the page of a command is absent until the PRM maps it, and present from then on
   until the command is done.
   */
  ghost predicate AbsentInv(procs: seq<Proc>, prm: Prm, w: Work, t: Table) {
    && (forall p :: 0 <= p < |procs| && (procs[p].pc.Missing? || procs[p].pc.Faulting?) ==>
          !Resident(t, KeyOf(p, procs[p].pc.job)))
    && (forall c :: c in w.cmds && !w.cmds[c].done && !PastMap(prm, c) ==> !Resident(t, w.cmds[c].key))
    && ((prm.Mapped? || prm.Loaded? || prm.Completing?) && prm.cmd in w.cmds ==> Resident(t, w.cmds[prm.cmd].key))
  }

  /** The PRM's view of the cache while it holds the write lock; eviction happens at most once. */
  ghost predicate PrmInv(prm: Prm, s: Store) {
    match prm
    case MapTry(_, tries) => tries <= 1 && (tries == 1 ==> s.cache.table.free != [])
    case Choosing(_, tries) => tries == 0 && s.cache.table.free == []
    case Chosen(_, tries, v) => tries == 0 && Resident(s.cache.table, v)
    case Synced(_, tries, v) => tries == 0 && Resident(s.cache.table, v) && Stored(s.cache, s.flat, v)
    case _ => true
  }

  // ---------------------------------------------------------------- accesses in progress

  predicate HasJob(pc: Pc) {
    HoldsRead(pc) || pc.Entering? || pc.Faulting? || pc.Waiting? || pc.Woken? || pc.Reentering?
  }

  ghost predicate JobsInv(blockSize: nat, procs: seq<Proc>, pageSize: nat) {
    forall p :: 0 <= p < |procs| && HasJob(procs[p].pc) ==> InPage(procs[p].pc.job, blockSize, pageSize)
  }

  /**
   From its last residency test until the copy is done, the page of process `p` stays in its frame, and
   the bytes copied so far are those of flat memory.
   */
  ghost predicate AccessOk(s: Store, p: nat, pc: Pc) {
    var t := s.cache.table;
    match pc
    case Pinned(job) => Resident(t, KeyOf(p, job))
    case Marked(job) =>
      && Resident(t, KeyOf(p, job))
      && (job.WriteJob? ==> forall i :: HeldAt(t, KeyOf(p, job), i) ==> t.slots[i].dirty)
    case Copying(job, frame, i, buf) =>
      var key := KeyOf(p, job);
      && HeldAt(t, key, frame) && (job.WriteJob? ==> t.slots[frame].dirty)
      && i <= job.Count() && key in s.flat
      && (job.ReadJob? ==> |buf| == i && forall j :: 0 <= j < i && job.off + j in s.flat[key] ==>
            buf[j] == s.flat[key][job.off + j])
      && (job.WriteJob? ==> forall o :: job.off <= o < job.off + i ==>
            o in s.flat[key] && s.flat[key][o] == job.data[o - job.off])
    case _ => true
  }

  ghost predicate AccessInv(procs: seq<Proc>, s: Store) {
    forall p {:trigger AccessOk(s, p, procs[p].pc)} :: 0 <= p < |procs| ==> AccessOk(s, p, procs[p].pc)
  }

  // ---------------------------------------------------------------- aging

  ghost predicate AgingInv(procs: seq<Proc>, daemon: Daemon, a: Aging) {
    && a.started == a.finished + (if daemon.DaemonIdle? then 0 else 1)
    && (!daemon.DaemonIdle? ==> a.shouldUpdate)
    && !(a.shouldUpdate && a.doneUpdating)
    && (forall p :: 0 <= p < |procs| && procs[p].pc.Awaiting? ==>
          && procs[p].pc.ticket <= a.finished
          && (a.doneUpdating ==> procs[p].pc.ticket < a.finished)
          && (!a.doneUpdating ==> a.shouldUpdate))
  }

  /**
   Entry `now` has been aged once since the pass found it as `before`: with its reference bit set if it was set
   then, and otherwise as it was marked meanwhile.
   */
  predicate AgedOnce(before: Slot, now: Slot) {
    && before.Held? == now.Held?
    && (now.Held? ==>
          && now.key == before.key
          && (now.age == AgeStep(before.age, true) || (!before.referenced && now.age == AgeStep(before.age, false))))
  }

  predicate NotAgedYet(before: Slot, now: Slot) {
    && before.Held? == now.Held?
    && (now.Held? ==> now.key == before.key && now.age == before.age && (before.referenced ==> now.referenced))
  }

  /** Entries below the daemon's position have been aged exactly once in this pass, the others not yet. */
  ghost predicate PassInv(daemon: Daemon, before: seq<Slot>, now: seq<Slot>) {
    DaemonReads(daemon) ==>
      && |before| == |now|
      && (daemon.Passing? ==> daemon.i <= |now|)
      && (forall i :: 0 <= i < |now| && (daemon.Passing? ==> i < daemon.i) ==> AgedOnce(before[i], now[i]))
      && (forall i :: 0 <= i < |now| && daemon.Passing? && daemon.i <= i ==> NotAgedYet(before[i], now[i]))
  }

  // ---------------------------------------------------------------- together

  function LoadingKey(s: Sys): Option<PageKey> {
    if s.prm.Mapped? && s.prm.cmd in s.work.cmds then Some(s.work.cmds[s.prm.cmd].key) else None
  }

  ghost predicate StoreInv(s: Sys) {
    Valid(s.store.cache) && Coherent(s.store.cache, s.store.flat, LoadingKey(s))
  }

  ghost predicate Inv(s: Sys) {
    && LockInv(s.procs, s.prm, s.daemon, s.locks)
    && BlocksInv(s.blockSize, s.procs, s.store.cache.used)
    && OwnInv(s.blockSize, s.procs, s.store.cache.backing)
    && QueueInv(s.prm, s.work)
    && ServedInv(s.prm, s.work)
    && OwnerInv(s.procs, s.work)
    && AbsentInv(s.procs, s.prm, s.work, s.store.cache.table)
    && PrmInv(s.prm, s.store)
    && JobsInv(s.blockSize, s.procs, s.store.cache.pageSize)
    && AccessInv(s.procs, s.store)
    && AgingInv(s.procs, s.daemon, s.aging)
    && PassInv(s.daemon, s.aging.before, s.store.cache.table.slots)
    && StoreInv(s)
  }
}
