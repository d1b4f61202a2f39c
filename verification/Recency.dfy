/**
 Reference histories over runs of the memory system: the log of who was referenced in which aging round,
 and the victims that faults choose by it.
 */
module Recency {
  import opened VmTypes
  import opened PageTable
  import opened Cache
  import opened Runs
  import opened Aging

  type Log = map<PageKey, History>

  /** A fault starts a new history for the page it brings in; eviction ends one unseen. */
  ghost function PinLog(hs: Log, c: Cache, key: PageKey): Log {
    if Resident(c.table, key) then hs else HistoryStep(hs, MapOp(key))
  }

  /** An access is one reference, and one more round for everyone when a round is due. */
  ghost function AccessLog(hs: Log, c: Cache, key: PageKey, write: bool): Log {
    var h := HistoryStep(PinLog(hs, c, key), RefOp(key, write));
    if c.stats.refCount + 1 >= c.stats.agingFreq then HistoryStep(h, AgeOp) else h
  }

  /** The log after one operation: it knows of faults, references and rounds, and of no ages. */
  ghost function OpLog(hs: Log, c: Cache, op: Op): Log {
    match op
    case Alloc(key, _) => if c.table.free == [] then hs else HistoryStep(hs, MapOp(key))
    case ReadBytes(key, _, _) => AccessLog(hs, c, key, false)
    case WriteBytes(key, _, _) => AccessLog(hs, c, key, true)
    case _ => hs
  }

  /** The log of a run. */
  ghost function RunLog(hs: Log, c: Cache, ops: seq<Op>): Log
    requires LegalRun(c, ops)
    decreases |ops|
  {
    if ops == [] then hs else RunLog(OpLog(hs, c, ops[0]), Step(c, ops[0]).0, ops[1..])
  }

  // ---------------------------------------------------------------- ages follow the log

  lemma ValidTable(c: Cache)
    requires Valid(c)
    ensures WellFormed(c.table)
  {
  }

  lemma EvictTracks(c: Cache, hs: Log, v: PageKey)
    requires Valid(c) && Resident(c.table, v) && Tracks(c.table, hs)
    ensures Evict(c, v).table == Remove(c.table, v) && Tracks(Evict(c, v).table, hs)
  {
    ValidTable(c);
    hide Valid, WellFormed, Resident, Tracks, Remove;
    StepTracks(c.table, hs, UnmapOp(v));
  }

  lemma MapTracks(t: Table, hs: Log, key: PageKey)
    requires WellFormed(t) && t.free != [] && !Resident(t, key) && Tracks(t, hs)
    ensures Tracks(Add(t, key), HistoryStep(hs, MapOp(key)))
  {
    hide WellFormed, Resident, Tracks, Add, HistoryStep;
    StepTracks(t, hs, MapOp(key));
  }

  lemma SwapInTable(c: Cache, key: PageKey)
    requires Valid(c) && !Resident(c.table, key) && key in c.backing
    ensures var r := MakeRoom(c, key);
      && WellFormed(r.table) && r.table.free != [] && !Resident(r.table, key)
      && SwapIn(c, key).table == Add(r.table, key)
    ensures c.table.free != [] ==> MakeRoom(c, key) == c
    ensures c.table.free == [] ==>
      Resident(c.table, Victim(c, key)) && MakeRoom(c, key) == Evict(c, Victim(c, key))
  {
    hide Valid, WellFormed, Resident, Victim, Evict;
  }

  lemma PinTracks(c: Cache, hs: Log, key: PageKey)
    requires Valid(c) && key in c.backing && Tracks(c.table, hs)
    ensures Tracks(Pin(c, key).table, PinLog(hs, c, key)) && Valid(Pin(c, key))
    ensures Resident(Pin(c, key).table, key) && Pin(c, key).stats.refCount == c.stats.refCount
    ensures Pin(c, key).stats.agingFreq == c.stats.agingFreq
  {
    hide Valid, WellFormed, Resident, Tracks, SwapIn, MakeRoom, Evict, Victim, HistoryStep;
    PinValid(c, key);
    PinCounts(c, key);
    if !Resident(c.table, key) {
      var d := c.(stats := c.stats.(nrefs := c.stats.nrefs + 1));
      StatsValid(c, d.stats);
      SwapInTable(d, key);
      if d.table.free == [] { EvictTracks(d, hs, Victim(d, key)); }
      MapTracks(MakeRoom(d, key).table, hs, key);
    }
  }

  lemma TouchTracks(c: Cache, hs: Log, key: PageKey, write: bool)
    requires Valid(c) && Resident(c.table, key) && Tracks(c.table, hs)
    ensures Tracks(Touch(c, key, write).table, HistoryStep(hs, RefOp(key, write)))
  {
    ValidTable(c);
    hide Valid, WellFormed, Resident, Tracks, HistoryStep, Reference;
    StepTracks(c.table, hs, RefOp(key, write));
  }

  /** The round that ends an access, if one is due, on a cache whose table is that of `a`. */
  lemma AgeTracks(a: Cache, d: Cache, hs: Log)
    requires Valid(a) && Tracks(a.table, hs) && d.table == a.table && d.stats == a.stats
    ensures Tracks(AgeIfNeeded(d).table, if d.stats.refCount >= d.stats.agingFreq then HistoryStep(hs, AgeOp) else hs)
  {
    ValidTable(a);
    hide Valid, WellFormed, Tracks, HistoryStep, AgeAll;
    StepTracks(a.table, hs, AgeOp);
  }

  lemma AccessTracks(c: Cache, hs: Log, key: PageKey, write: bool, d: Cache)
    requires Valid(c) && key in c.backing && Tracks(c.table, hs)
    requires d.table == Access(c, key, write).table && d.stats == Access(c, key, write).stats
    ensures Tracks(AgeIfNeeded(d).table, AccessLog(hs, c, key, write))
  {
    hide Valid, WellFormed, Resident, Tracks, HistoryStep, Pin, PinLog, AgeIfNeeded, Reference;
    PinTracks(c, hs, key);
    TouchTracks(Pin(c, key), PinLog(hs, c, key), key, write);
    AgeTracks(Access(c, key, write), d, HistoryStep(PinLog(hs, c, key), RefOp(key, write)));
  }

  lemma AllocTracks(c: Cache, hs: Log, key: PageKey, diskPage: nat)
    requires Valid(c) && key !in c.backing && Tracks(c.table, hs)
    ensures WellFormed(c.table)
    ensures Tracks(AllocPage(c, key, diskPage).table, if c.table.free == [] then hs else HistoryStep(hs, MapOp(key)))
  {
    ValidTable(c);
    NotAllocated(c, key);
    hide Valid, WellFormed, Resident, Tracks, HistoryStep, Add;
    if c.table.free != [] { MapTracks(c.table, hs, key); }
  }

  lemma NotAllocated(c: Cache, key: PageKey)
    requires Valid(c) && key !in c.backing
    ensures !Resident(c.table, key)
  {
  }

  lemma FreeTracks(c: Cache, hs: Log, key: PageKey)
    requires Valid(c) && Tracks(c.table, hs)
    ensures Tracks(FreePage(c, key).table, hs)
  {
    ValidTable(c);
    hide Valid, WellFormed, Resident, Tracks, Remove;
    StepTracks(c.table, hs, UnmapOp(key));
  }

  /** After every operation, the age and the reference bit of every resident page are those of the log. */
  lemma OpTracks(c: Cache, hs: Log, op: Op)
    requires Valid(c) && Legal(c, op) && Tracks(c.table, hs)
    ensures Tracks(Step(c, op).0.table, OpLog(hs, c, op))
  {
    hide Valid, WellFormed, Resident, Tracks, HistoryStep, AccessLog, AllocPage, FreePage, Evict, AgeIfNeeded, Access;
    match op
    case Alloc(key, p) => AllocTracks(c, hs, key, p);
    case Free(key) => FreeTracks(c, hs, key);
    case ReadBytes(key, off, n) => AccessTracks(c, hs, key, false, Access(c, key, false));
    case WriteBytes(key, off, bytes) =>
      var a := Access(c, key, true);
      FrameFits(a, key);
      AccessTracks(c, hs, key, true, PatchFrame(a, FrameOf(a.table, key), off, bytes));
    case EvictPage(key) => EvictTracks(c, hs, key);
    case _ =>
  }

  lemma FrameFits(c: Cache, key: PageKey)
    requires Valid(c) && Resident(c.table, key)
    ensures var f := FrameOf(c.table, key); 0 <= f < |c.mem| && |c.mem[f]| == c.pageSize
  {
  }

  lemma {:induction false} RunFollowsLog(c: Cache, hs: Log, ops: seq<Op>)
    requires LegalRun(c, ops) && Tracks(c.table, hs)
    ensures Tracks(Run(c, ops).table, RunLog(hs, c, ops))
    decreases |ops|
  {
    hide Valid, Legal, Step, OpLog, Tracks;
    if ops != [] {
      OpTracks(c, hs, ops[0]);
      RunFollowsLog(Step(c, ops[0]).0, OpLog(hs, c, ops[0]), ops[1..]);
    }
  }

  // ---------------------------------------------------------------- victims

  /** By the log, `v` has been used no more recently than any resident page. */
  ghost predicate LeastRecentlyUsed(t: Table, hs: Log, v: PageKey) {
    && v in hs
    && forall k :: Resident(t, k) ==> k in hs && !LexLess(Window(hs[k].rounds), Window(hs[v].rounds))
  }

  lemma VictimByLog(c: Cache, hs: Log, key: PageKey)
    requires Valid(c) && c.table.free == [] && !Resident(c.table, key) && Tracks(c.table, hs)
    ensures WellFormed(c.table) && LeastRecentlyUsed(c.table, hs, Victim(c, key))
  {
    ValidTable(c);
    VictimIsLeastRecentlyUsed(c.table, hs, key);
    hide Valid, WellFormed, LexLess, Window;
    var t, v := c.table, Victim(c, key);
    forall k | Resident(t, k) ensures k in hs && !LexLess(Window(hs[k].rounds), Window(hs[v].rounds)) {
      var i :| HeldAt(t, k, i);
    }
  }

  /**
   Over every run from the initial system: whenever an access then faults with every frame in use, the page
   it evicts is least recently used by the log of that run.
   */
  lemma EveryVictimIsLeastRecentlyUsed(frames: nat, diskPages: nat, pageSize: nat, agingFreq: nat, ops: seq<Op>,
      key: PageKey)
    requires frames > 0 && pageSize > 0
    requires LegalRun(Initial(frames, diskPages, pageSize, agingFreq), ops)
    ensures var c := Run(Initial(frames, diskPages, pageSize, agingFreq), ops);
      var hs := RunLog(map[], Initial(frames, diskPages, pageSize, agingFreq), ops);
      && Valid(c) && Tracks(c.table, hs)
      && (key in c.backing && !Resident(c.table, key) && c.table.free == [] ==>
            && WellFormed(c.table) && LeastRecentlyUsed(c.table, hs, Victim(c, key))
            && !Resident(SwapIn(c, key).table, Victim(c, key)))
  {
    var c0 := Initial(frames, diskPages, pageSize, agingFreq);
    InitialRefines(frames, diskPages, pageSize, agingFreq);
    assert Tracks(c0.table, map[]);
    hide Valid, Coherent, WellFormed, Resident, Tracks, Victim, SwapIn, LeastRecentlyUsed, Run, RunLog, LegalRun;
    RunRefines(c0, map[], ops);
    RunFollowsLog(c0, map[], ops);
    var c := Run(c0, ops);
    if key in c.backing && !Resident(c.table, key) && c.table.free == [] {
      VictimByLog(c, RunLog(map[], c0, ops), key);
      VictimLeaves(c, key);
    }
  }

  lemma VictimLeaves(c: Cache, key: PageKey)
    requires Valid(c) && key in c.backing && !Resident(c.table, key) && c.table.free == []
    ensures WellFormed(c.table) && !Resident(SwapIn(c, key).table, Victim(c, key))
  {
    ValidTable(c);
    SwapInTable(c, key);
    RemoveWellFormed(c.table, Victim(c, key));
    AddWellFormed(MakeRoom(c, key).table, key);
  }

  // ---------------------------------------------------------------- dirty pages

  /** Eviction writes the page's disk page exactly when the log has the page written since it was mapped. */
  lemma EvictWritesByLog(c: Cache, hs: Log, key: PageKey)
    requires Valid(c) && Resident(c.table, key) && Tracks(c.table, hs)
    ensures key in hs && key in c.backing && 0 <= c.backing[key] < |c.disk| && 0 <= FrameOf(c.table, key) < |c.mem|
    ensures SlotOf(c, key).dirty <==> hs[key].written
    ensures Evict(c, key).disk ==
      if hs[key].written then c.disk[c.backing[key] := c.mem[FrameOf(c.table, key)]] else c.disk
  {
  }

  /**
   Over every run from the initial system a resident page is dirty exactly when it has been written since it
   was mapped; so evicting a page that has only been read since then changes no disk page.
   */
  lemma DirtyMeansWritten(frames: nat, diskPages: nat, pageSize: nat, agingFreq: nat, ops: seq<Op>, key: PageKey)
    requires frames > 0 && pageSize > 0
    requires LegalRun(Initial(frames, diskPages, pageSize, agingFreq), ops)
    ensures var c := Run(Initial(frames, diskPages, pageSize, agingFreq), ops);
      var hs := RunLog(map[], Initial(frames, diskPages, pageSize, agingFreq), ops);
      && Valid(c)
      && (Resident(c.table, key) ==>
            && key in hs && (SlotOf(c, key).dirty <==> hs[key].written)
            && (!hs[key].written ==> Evict(c, key).disk == c.disk))
  {
    hide Valid, Resident, Tracks, Evict, Run, RunLog, LegalRun, Victim, SwapIn, SlotOf;
    EveryVictimIsLeastRecentlyUsed(frames, diskPages, pageSize, agingFreq, ops, key);
    var c0 := Initial(frames, diskPages, pageSize, agingFreq);
    if Resident(Run(c0, ops).table, key) { EvictWritesByLog(Run(c0, ops), RunLog(map[], c0, ops), key); }
  }
}
