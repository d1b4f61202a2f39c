/**
 Sequential runs. Whatever the order of allocations, accesses, evictions and frees, every process
 sees flat memory; and the reference counters add up.
 */
module Runs {
  import opened VmTypes
  import opened PageTable
  import opened Cache

  datatype Op =
    | AllocBlock(start: nat, n: nat)
    | FreeBlock(start: nat, n: nat)
    | Alloc(key: PageKey, diskPage: nat)
    | Free(key: PageKey)
    | ReadBytes(key: PageKey, off: nat, n: nat)
    | WriteBytes(key: PageKey, off: nat, bytes: seq<Byte>)
    | EvictPage(key: PageKey)

  /** What the source asserts, or arranges in its callers, before each operation. */
  ghost predicate Legal(c: Cache, op: Op) {
    match op
    case AllocBlock(start, n) =>
      start + n <= |c.used| && forall i :: start <= i < start + n ==> !c.used[i]
    case FreeBlock(start, n) =>
      start + n <= |c.used| && forall k :: k in c.backing ==> !(start <= c.backing[k] < start + n)
    case Alloc(key, p) =>
      key !in c.backing && p < |c.used| && c.used[p] && p !in c.backing.Values
    case Free(key) => key in c.backing
    case ReadBytes(key, off, n) => key in c.backing && off + n <= c.pageSize
    case WriteBytes(key, off, bytes) => key in c.backing && off + |bytes| <= c.pageSize
    case EvictPage(key) => Resident(c.table, key)
  }

  ghost function Step(c: Cache, op: Op): (Cache, seq<Byte>)
    requires Valid(c) && Legal(c, op)
  {
    match op
    case AllocBlock(start, n) => (c.(used := SetRange(c.used, start, n, true)), [])
    case FreeBlock(start, n) => (c.(used := SetRange(c.used, start, n, false)), [])
    case Alloc(key, p) => (AllocPage(c, key, p), [])
    case Free(key) => (FreePage(c, key), [])
    case ReadBytes(key, off, n) => Read(c, key, off, n)
    case WriteBytes(key, off, bytes) => (Write(c, key, off, bytes), [])
    case EvictPage(key) => (Evict(c, key), [])
  }

  /** The same operation on flat memory, which knows of no frames and no disk. */
  function FlatStep(w: Flat, op: Op): Flat {
    match op
    case Alloc(key, _) => w[key := map[]]
    case Free(key) => w - {key}
    case WriteBytes(key, off, bytes) =>
      if key in w then w[key := PatchWritten(w[key], off, bytes)] else w
    case _ => w
  }

  /** What flat memory promises of the result of a step: a read has every written byte right. */
  ghost predicate Agrees(w: Flat, op: Op, out: seq<Byte>) {
    op.ReadBytes? ==>
      && op.key in w && |out| == op.n
      && forall i :: 0 <= i < op.n && op.off + i in w[op.key] ==> out[i] == w[op.key][op.off + i]
  }

  lemma StepRefines(c: Cache, w: Flat, op: Op)
    requires Valid(c) && Coherent(c, w, None) && Legal(c, op)
    ensures Valid(Step(c, op).0) && Coherent(Step(c, op).0, FlatStep(w, op), None)
    ensures Agrees(w, op, Step(c, op).1)
  {
    hide Valid, Coherent, Read, Write, AllocPage, FreePage, Evict;
    match op
    case AllocBlock(start, n) => BlockCoherent(c, w, op);
    case FreeBlock(start, n) => BlockCoherent(c, w, op);
    case Alloc(key, p) => AllocCoherent(c, w, key, p);
    case Free(key) => FreeCoherent(c, w, key);
    case ReadBytes(key, off, n) => ReadCoherent(c, w, key, off, n);
    case WriteBytes(key, off, bytes) => WriteCoherent(c, w, key, off, bytes);
    case EvictPage(key) => EvictCoherent(c, w, key);
  }

  /** Marking pages as used, or unmarking pages that back nothing, does not disturb the cache. */
  lemma BlockCoherent(c: Cache, w: Flat, op: Op)
    requires Valid(c) && Coherent(c, w, None) && Legal(c, op) && (op.AllocBlock? || op.FreeBlock?)
    ensures Valid(Step(c, op).0) && Coherent(Step(c, op).0, w, None)
  {
    UsedCoherent(c, w, None, Step(c, op).0.used);
  }

  // ---------------------------------------------------------------- whole runs

  ghost predicate LegalRun(c: Cache, ops: seq<Op>)
    decreases |ops|
  {
    ops == [] || (Valid(c) && Legal(c, ops[0]) && LegalRun(Step(c, ops[0]).0, ops[1..]))
  }

  ghost function Run(c: Cache, ops: seq<Op>): Cache
    requires LegalRun(c, ops)
    decreases |ops|
  {
    if ops == [] then c else Run(Step(c, ops[0]).0, ops[1..])
  }

  /** What each step of the run returned. */
  ghost function Outputs(c: Cache, ops: seq<Op>): (r: seq<seq<Byte>>)
    requires LegalRun(c, ops)
    ensures |r| == |ops|
    decreases |ops|
  {
    if ops == [] then [] else [Step(c, ops[0]).1] + Outputs(Step(c, ops[0]).0, ops[1..])
  }

  function FlatRun(w: Flat, ops: seq<Op>): Flat
    decreases |ops|
  {
    if ops == [] then w else FlatRun(FlatStep(w, ops[0]), ops[1..])
  }

  /**
   The refinement theorem: over every run, each read returns, for every byte written since its page
   was allocated, the last value written there, as flat memory would.
   */
  lemma {:induction false} RunRefines(c: Cache, w: Flat, ops: seq<Op>)
    requires Valid(c) && Coherent(c, w, None) && LegalRun(c, ops)
    ensures Valid(Run(c, ops)) && Coherent(Run(c, ops), FlatRun(w, ops), None)
    ensures forall i :: 0 <= i < |ops| ==> Agrees(FlatRun(w, ops[..i]), ops[i], Outputs(c, ops)[i])
    decreases |ops|
  {
    hide Step, Valid, Coherent, Agrees, FlatStep;
    if ops != [] {
      var c', w' := Step(c, ops[0]).0, FlatStep(w, ops[0]);
      StepRefines(c, w, ops[0]);
      RunRefines(c', w', ops[1..]);
      forall i | 0 <= i < |ops| ensures Agrees(FlatRun(w, ops[..i]), ops[i], Outputs(c, ops)[i]) {
        if i > 0 {
          assert ops[..i][1..] == ops[1..][..i - 1];
          assert Agrees(FlatRun(w', ops[1..][..i - 1]), ops[1..][i - 1], Outputs(c', ops[1..])[i - 1]);
        }
      }
    }
  }

  lemma StepKeepsPageSize(c: Cache, op: Op)
    requires Valid(c) && Legal(c, op)
    ensures Step(c, op).0.pageSize == c.pageSize
  {
    hide Valid, WellFormed, Resident;
  }

  lemma {:induction false} RunKeepsPageSize(c: Cache, ops: seq<Op>)
    requires LegalRun(c, ops)
    ensures Run(c, ops).pageSize == c.pageSize
    decreases |ops|
  {
    hide Step, Valid, Legal;
    if ops != [] {
      StepKeepsPageSize(c, ops[0]);
      if ops[1..] != [] { RunKeepsPageSize(Step(c, ops[0]).0, ops[1..]); }
    }
  }

  /** The memory system as its initialisers leave it. */
  function Initial(frames: nat, diskPages: nat, pageSize: nat, agingFreq: nat): Cache {
    Cache(pageSize,
          Table(seq(frames, _ => Vacant), seq(frames, i => i)),
          seq(frames, _ => seq(pageSize, _ => 0)),
          map[],
          seq(diskPages, _ => seq(pageSize, _ => 0)),
          seq(diskPages, _ => false),
          Stats(0, agingFreq, 0, 0, 0, 0))
  }

  lemma InitialRefines(frames: nat, diskPages: nat, pageSize: nat, agingFreq: nat)
    requires frames > 0 && pageSize > 0
    ensures var c := Initial(frames, diskPages, pageSize, agingFreq);
      Valid(c) && Coherent(c, map[], None)
  {
    var t := Initial(frames, diskPages, pageSize, agingFreq).table;
    forall i | 0 <= i < |t.slots| ensures i in t.free { assert t.free[i] == i; }
  }

  // ---------------------------------------------------------------- never-written bytes

  /** Swap a resident page out and in again. */
  ghost function Cycle(c: Cache, key: PageKey): Cache
    requires Valid(c) && Resident(c.table, key)
  {
    SyncToValid(c, key);
    UnmapValid(SyncTo(c, key), key);
    RemoveWellFormed(SyncTo(c, key).table, key);
    SwapIn(Evict(c, key), key)
  }

  lemma SwapInLoads(c: Cache, key: PageKey)
    requires Valid(c) && !Resident(c.table, key) && key in c.backing && c.table.free != []
    ensures var d := SwapIn(c, key);
      Resident(d.table, key) && Valid(d) && d.mem[FrameOf(d.table, key)] == c.disk[c.backing[key]]
  {
    SwapInValid(c, key);
  }

  /**
   A byte never written may change over a page's stay on the disk, because a fresh page is mapped
   without being loaded. The page as a whole survives exactly when it was dirty, or was the same in
   memory and on the disk to begin with.
   */
  lemma CycleKeepsPage(c: Cache, key: PageKey)
    requires Valid(c) && Resident(c.table, key)
    ensures Resident(Cycle(c, key).table, key) && Valid(Cycle(c, key))
    ensures Cycle(c, key).mem[FrameOf(Cycle(c, key).table, key)] == c.mem[FrameOf(c.table, key)] <==>
            SlotOf(c, key).dirty || c.mem[FrameOf(c.table, key)] == c.disk[c.backing[key]]
  {
    SyncToValid(c, key);
    UnmapValid(SyncTo(c, key), key);
    RemoveWellFormed(SyncTo(c, key).table, key);
    SwapInLoads(Evict(c, key), key);
  }

  // ---------------------------------------------------------------- accounting

  function Accesses(ops: seq<Op>): nat {
    if ops == [] then 0
    else (if ops[0].ReadBytes? || ops[0].WriteBytes? then 1 else 0) + Accesses(ops[1..])
  }

  lemma StepCounts(c: Cache, op: Op)
    requires Valid(c) && Legal(c, op)
    ensures var s, s' := c.stats, Step(c, op).0.stats;
      var isAccess := op.ReadBytes? || op.WriteBytes?;
      && s'.agingFreq == s.agingFreq
      && (!isAccess ==> s' == s)
      && (isAccess ==>
            && s'.nrefs == s.nrefs + 1
            && s'.nrefs - s'.hits - s'.swapIns == s.nrefs - s.hits - s.swapIns
            && s'.hits == s.hits + (if Resident(c.table, op.key) then 1 else 0)
            && (s.refCount + 1 < s.agingFreq ==> s'.refCount == s.refCount + 1 && s'.rounds == s.rounds)
            && (s.refCount + 1 >= s.agingFreq ==> s'.refCount == 0 && s'.rounds == s.rounds + 1))
  {
    if op.ReadBytes? || op.WriteBytes? { PinCounts(c, op.key); }
  }

  lemma PinCounts(c: Cache, key: PageKey)
    requires Valid(c) && key in c.backing
    ensures var s, s' := c.stats, Pin(c, key).stats;
      && s' == s.(nrefs := s.nrefs + 1, hits := s'.hits, swapIns := s'.swapIns)
      && s'.hits + s'.swapIns == s.hits + s.swapIns + 1
      && s'.hits == s.hits + if Resident(c.table, key) then 1 else 0
  {
  }

  /**
   With an aging frequency of at least one, every access is a hit or a swap-in, the references made
   are `agingFreq` for each aging round and the count since the last one, and that count stays below
   the frequency.
   */
  lemma {:induction false} RunCounts(c: Cache, ops: seq<Op>)
    requires Valid(c) && LegalRun(c, ops)
    requires c.stats.refCount < c.stats.agingFreq
    ensures var s, s' := c.stats, Run(c, ops).stats;
      && s'.agingFreq == s.agingFreq
      && s'.nrefs == s.nrefs + Accesses(ops)
      && s'.nrefs - s'.hits - s'.swapIns == s.nrefs - s.hits - s.swapIns
      && s'.refCount < s'.agingFreq
      && s.agingFreq * s'.rounds + s'.refCount == s.agingFreq * s.rounds + s.refCount + Accesses(ops)
    decreases |ops|
  {
    hide Step, Valid, Legal;
    if ops != [] {
      StepCounts(c, ops[0]);
      assert Valid(c) && Legal(c, ops[0]);
      var c' := Step(c, ops[0]).0;
      assert c.stats.agingFreq * (c.stats.rounds + 1) == c.stats.agingFreq * c.stats.rounds + c.stats.agingFreq;
      if ops[1..] != [] { RunCounts(c', ops[1..]); }
    }
  }

  /** An access whose page is resident in the state it starts from. */
  ghost predicate FindsItsPage(c: Cache, op: Op) {
    (op.ReadBytes? || op.WriteBytes?) && Resident(c.table, op.key)
  }

  /** How many accesses of the run found their page resident. */
  ghost function FoundResident(c: Cache, ops: seq<Op>): nat
    requires LegalRun(c, ops)
    decreases |ops|
  {
    if ops == [] then 0
    else (if FindsItsPage(c, ops[0]) then 1 else 0) + FoundResident(Step(c, ops[0]).0, ops[1..])
  }

  /** Hits are the accesses that found their page resident, swap-ins all the others. */
  lemma {:induction false} RunCountsHits(c: Cache, ops: seq<Op>)
    requires LegalRun(c, ops)
    ensures FoundResident(c, ops) <= Accesses(ops)
    ensures var s, s' := c.stats, Run(c, ops).stats;
      && s'.hits == s.hits + FoundResident(c, ops)
      && s'.swapIns == s.swapIns + (Accesses(ops) - FoundResident(c, ops))
    decreases |ops|
  {
    hide Step, Valid, Legal, Resident;
    if ops != [] {
      StepCounts(c, ops[0]);
      RunCountsHits(Step(c, ops[0]).0, ops[1..]);
    }
  }

  /** With frequency 0 every access runs a round, so the sum holds exactly when nothing was accessed. */
  lemma {:induction false} RunCountsZero(c: Cache, ops: seq<Op>)
    requires Valid(c) && LegalRun(c, ops)
    requires c.stats.agingFreq == 0 && c.stats.refCount == 0
    ensures Run(c, ops).stats.rounds == c.stats.rounds + Accesses(ops)
    ensures Run(c, ops).stats.agingFreq == 0 && Run(c, ops).stats.refCount == 0
    ensures var s, s' := c.stats, Run(c, ops).stats;
      s.agingFreq * s'.rounds + s'.refCount == s.agingFreq * s.rounds + s.refCount + Accesses(ops)
      <==> Accesses(ops) == 0
    decreases |ops|
  {
    hide Step, Valid, Legal;
    if ops != [] {
      StepCounts(c, ops[0]);
      if ops[1..] != [] { RunCountsZero(Step(c, ops[0]).0, ops[1..]); }
    }
  }
}
