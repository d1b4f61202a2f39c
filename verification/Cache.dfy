/**
 The memory system on values: frames over a page table, backed by disk pages. Every operation of
 vmsim/mmu.c and of the page replacement manager is a function here; the classes refine them, the
 sequential runs (Runs.dfy) and the concurrent steps (Protocol.dfy) are made of them.
 */
module Cache {
  import opened VmTypes
  import opened PageTable

  /** `rounds` and `swapIns` are observers: aging rounds run and page faults served. */
  datatype Stats = Stats(refCount: nat, agingFreq: nat, nrefs: nat, hits: nat, rounds: nat, swapIns: nat)

  datatype Cache = Cache(
    pageSize: nat,
    table: Table,
    mem: seq<Page>,
    backing: map<PageKey, int>,
    disk: seq<Page>,
    used: seq<bool>,
    stats: Stats)

  /** The bytes of one page written since it was allocated, by offset. */
  type Written = map<nat, Byte>

  /** Flat memory: for each allocated page, its written bytes. */
  type Flat = map<PageKey, Written>

  ghost predicate BackingOk(c: Cache) {
    && (forall k :: k in c.backing ==> 0 <= c.backing[k] < |c.used| && c.used[c.backing[k]])
    && (forall k, l :: k in c.backing && l in c.backing && k != l ==> c.backing[k] != c.backing[l])
  }

  ghost predicate SizesOk(c: Cache) {
    && c.pageSize > 0
    && |c.mem| == |c.table.slots|
    && |c.disk| == |c.used|
    && (forall i :: 0 <= i < |c.mem| ==> |c.mem[i]| == c.pageSize)
    && (forall i :: 0 <= i < |c.disk| ==> |c.disk[i]| == c.pageSize)
  }

  /** Resident pages are allocated; allocated pages own distinct used disk pages. */
  ghost predicate Valid(c: Cache) {
    && SizesOk(c)
    && WellFormed(c.table)
    && BackingOk(c)
    && forall i :: 0 <= i < |c.table.slots| && c.table.slots[i].Held? ==> c.table.slots[i].key in c.backing
  }

  /** Page `p` has every written byte of `w`. */
  ghost predicate Holds(p: Page, w: Written) {
    forall o :: o in w ==> o < |p| && p[o] == w[o]
  }

  /** The disk copy of page `k` is complete. */
  ghost predicate Stored(c: Cache, w: Flat, k: PageKey) {
    k in c.backing && k in w && 0 <= c.backing[k] < |c.disk| && Holds(c.disk[c.backing[k]], w[k])
  }

  /** Frame `i` is complete, and so is the disk copy of its page unless the page is dirty. */
  ghost predicate FrameCoherent(c: Cache, w: Flat, loading: Option<PageKey>, i: int)
    requires 0 <= i < |c.table.slots| && c.table.slots[i].Held?
  {
    var s := c.table.slots[i];
    && s.key in w && i < |c.mem|
    && (loading != Some(s.key) ==> Holds(c.mem[i], w[s.key]))
    && (loading == Some(s.key) || !s.dirty ==> !s.dirty && Stored(c, w, s.key))
  }

  /**
   The coherence invariant. A resident page has its written bytes in its frame, and on the disk too
   unless it is dirty; a page that is not resident has them on the disk. Of the page being swapped in,
   mapped but not yet loaded, only the disk copy is promised.
   */
  ghost predicate Coherent(c: Cache, w: Flat, loading: Option<PageKey>) {
    && w.Keys == c.backing.Keys
    && (forall i {:trigger FrameCoherent(c, w, loading, i)} ::
          0 <= i < |c.table.slots| && c.table.slots[i].Held? ==> FrameCoherent(c, w, loading, i))
    && (forall k {:trigger Stored(c, w, k)} :: k in w && !Resident(c.table, k) ==> Stored(c, w, k))
  }

  // ---------------------------------------------------------------- operations

  ghost function MapPage(c: Cache, key: PageKey): Cache
    requires WellFormed(c.table)
  {
    if c.table.free == [] then c else c.(table := Add(c.table, key))
  }

  ghost function Unmap(c: Cache, key: PageKey): Cache {
    c.(table := Remove(c.table, key))
  }

  /** The slot of a resident page. */
  ghost function SlotOf(c: Cache, key: PageKey): (s: Slot)
    requires Resident(c.table, key)
    ensures s.Held? && s.key == key
  {
    c.table.slots[FrameOf(c.table, key)]
  }

  /** Write a dirty page back; a clean one is left alone. */
  ghost function SyncTo(c: Cache, key: PageKey): Cache
    requires Valid(c) && Resident(c.table, key)
  {
    if SlotOf(c, key).dirty
    then c.(disk := c.disk[c.backing[key] := c.mem[FrameOf(c.table, key)]])
    else c
  }

  ghost function Load(c: Cache, key: PageKey): Cache
    requires Valid(c) && Resident(c.table, key)
  {
    c.(mem := c.mem[FrameOf(c.table, key) := c.disk[c.backing[key]]])
  }

  ghost function Evict(c: Cache, victim: PageKey): Cache
    requires Valid(c) && Resident(c.table, victim)
  {
    Unmap(SyncTo(c, victim), victim)
  }

  ghost function Victim(c: Cache, target: PageKey): (v: PageKey)
    requires WellFormed(c.table) && c.table.free == [] && !Resident(c.table, target)
    ensures Resident(c.table, v) && v != target
  {
    VictimExists(c.table, target);
    var i := Oldest(c.table.slots, target, |c.table.slots|);
    assert HeldAt(c.table, c.table.slots[i].key, i);
    c.table.slots[i].key
  }

  /** The cache with a free frame: unchanged if there is one, else after one eviction. */
  ghost function MakeRoom(c: Cache, key: PageKey): (c': Cache)
    requires Valid(c) && !Resident(c.table, key)
    ensures WellFormed(c'.table) && c'.table.free != [] && !Resident(c'.table, key)
  {
    if c.table.free == [] then
      RemoveWellFormed(c.table, Victim(c, key));
      Evict(c, Victim(c, key))
    else c
  }

  ghost function SwapIn(c: Cache, key: PageKey): Cache
    requires Valid(c) && !Resident(c.table, key) && key in c.backing
  {
    MakeRoomValid(c, key);
    MapValid(MakeRoom(c, key), key);
    var r := Load(MapPage(MakeRoom(c, key), key), key);
    r.(stats := r.stats.(swapIns := r.stats.swapIns + 1))
  }

  /** Bring a page in if it is not resident, counting the reference. */
  ghost function Pin(c: Cache, key: PageKey): Cache
    requires Valid(c) && key in c.backing
  {
    if Resident(c.table, key)
    then c.(stats := c.stats.(nrefs := c.stats.nrefs + 1, hits := c.stats.hits + 1))
    else SwapIn(c.(stats := c.stats.(nrefs := c.stats.nrefs + 1)), key)
  }

  ghost function Touch(c: Cache, key: PageKey, write: bool): Cache
    requires Resident(c.table, key)
  {
    c.(table := Reference(c.table, key, write), stats := c.stats.(refCount := c.stats.refCount + 1))
  }

  function Patch(p: Page, off: nat, bytes: seq<Byte>): (q: Page)
    requires off + |bytes| <= |p|
    ensures |q| == |p|
    ensures forall i :: 0 <= i < |p| ==> q[i] == if off <= i < off + |bytes| then bytes[i - off] else p[i]
  {
    p[..off] + bytes + p[off + |bytes|..]
  }

  ghost function PatchFrame(c: Cache, frame: nat, off: nat, bytes: seq<Byte>): Cache
    requires frame < |c.mem| && off + |bytes| <= |c.mem[frame]|
  {
    c.(mem := c.mem[frame := Patch(c.mem[frame], off, bytes)])
  }

  /** Bytes of a resident page patched in its frame; nothing if they do not fit. */
  ghost function PatchPage(c: Cache, key: PageKey, off: nat, bytes: seq<Byte>): Cache {
    var f := FrameOf(c.table, key);
    if 0 <= f < |c.mem| && off + |bytes| <= |c.mem[f]| then PatchFrame(c, f, off, bytes) else c
  }

  /** Bytes of a resident page; none if there are not that many. */
  ghost function BytesOf(c: Cache, key: PageKey, off: nat, n: nat): seq<Byte> {
    var f := FrameOf(c.table, key);
    if 0 <= f < |c.mem| && off + n <= |c.mem[f]| then c.mem[f][off..off + n] else []
  }

  function PatchWritten(w: Written, off: nat, bytes: seq<Byte>): (r: Written)
    ensures forall o :: o in r <==> o in w || off <= o < off + |bytes|
    ensures forall o :: o in r ==> r[o] == if off <= o < off + |bytes| then bytes[o - off] else w[o]
    decreases |bytes|
  {
    if bytes == [] then w
    else
      var n := |bytes| - 1;
      PatchWritten(w, off, bytes[..n])[off + n := bytes[n]]
  }

  /** Run an aging round when enough references have been made since the last one. */
  ghost function AgeIfNeeded(c: Cache): Cache {
    if c.stats.refCount >= c.stats.agingFreq
    then c.(table := AgeAll(c.table), stats := c.stats.(refCount := 0, rounds := c.stats.rounds + 1))
    else c
  }

  /** What mmu_read and mmu_write do before they copy: the page is resident and marked. */
  ghost function Access(c: Cache, key: PageKey, write: bool): (c': Cache)
    requires Valid(c) && key in c.backing
    ensures Resident(c'.table, key) && Valid(c') && c'.backing == c.backing && c'.pageSize == c.pageSize
  {
    PinValid(c, key);
    TouchValid(Pin(c, key), key, write);
    Touch(Pin(c, key), key, write)
  }

  ghost function Read(c: Cache, key: PageKey, off: nat, n: nat): (Cache, seq<Byte>)
    requires Valid(c) && key in c.backing && off + n <= c.pageSize
  {
    var a := Access(c, key, false);
    (AgeIfNeeded(a), a.mem[FrameOf(a.table, key)][off..off + n])
  }

  ghost function Write(c: Cache, key: PageKey, off: nat, bytes: seq<Byte>): Cache
    requires Valid(c) && key in c.backing && off + |bytes| <= c.pageSize
  {
    var a := Access(c, key, true);
    AgeIfNeeded(PatchFrame(a, FrameOf(a.table, key), off, bytes))
  }

  /** Map a fresh page in a free frame, without loading it, if there is one; and give it its disk page. */
  ghost function AllocPage(c: Cache, key: PageKey, diskPage: nat): Cache
    requires WellFormed(c.table)
  {
    MapPage(c, key).(backing := c.backing[key := diskPage])
  }

  ghost function FreePage(c: Cache, key: PageKey): Cache {
    Unmap(c, key).(backing := c.backing - {key})
  }

  /** Pages `start..start + n` exist and are all clear. */
  predicate ClearRange(used: seq<bool>, start: nat, n: nat) {
    start + n <= |used| && forall d :: start <= d < start + n ==> !used[d]
  }

  function SetRange(used: seq<bool>, start: nat, n: nat, value: bool): (r: seq<bool>)
    requires start + n <= |used|
    ensures |r| == |used|
    ensures forall i :: 0 <= i < |used| ==> r[i] == if start <= i < start + n then value else used[i]
  {
    used[..start] + seq(n, _ => value) + used[start + n..]
  }

  // ---------------------------------------------------------------- validity

  lemma SyncToValid(c: Cache, key: PageKey)
    requires Valid(c) && Resident(c.table, key)
    ensures Valid(SyncTo(c, key))
  {
  }

  lemma UnmapValid(c: Cache, key: PageKey)
    requires Valid(c)
    ensures Valid(Unmap(c, key))
  {
    RemoveWellFormed(c.table, key);
    HeldKeysFollow(c, Unmap(c, key));
  }

  /** Every slot of `d` holds what the same slot of `c` holds, so residency still implies allocation. */
  lemma HeldKeysFollow(c: Cache, d: Cache)
    requires Valid(c) && c.backing.Keys <= d.backing.Keys
    requires forall k, i :: HeldAt(d.table, k, i) ==> HeldAt(c.table, k, i) || k in d.backing
    ensures forall i :: 0 <= i < |d.table.slots| && d.table.slots[i].Held? ==> d.table.slots[i].key in d.backing
  {
    forall i | 0 <= i < |d.table.slots| && d.table.slots[i].Held? ensures d.table.slots[i].key in d.backing {
      assert HeldAt(d.table, d.table.slots[i].key, i);
    }
  }

  lemma MapValid(c: Cache, key: PageKey)
    requires Valid(c) && !Resident(c.table, key) && key in c.backing
    ensures Valid(MapPage(c, key))
    ensures c.table.free != [] ==> Resident(MapPage(c, key).table, key)
  {
    if c.table.free != [] {
      AddWellFormed(c.table, key);
      HeldKeysFollow(c, MapPage(c, key));
    }
  }

  lemma MakeRoomValid(c: Cache, key: PageKey)
    requires Valid(c) && !Resident(c.table, key)
    ensures Valid(MakeRoom(c, key)) && MakeRoom(c, key).backing == c.backing
  {
    if c.table.free == [] {
      var v := Victim(c, key);
      SyncToValid(c, v);
      UnmapValid(SyncTo(c, v), v);
    }
  }

  lemma SwapInValid(c: Cache, key: PageKey)
    requires Valid(c) && !Resident(c.table, key) && key in c.backing
    ensures Valid(SwapIn(c, key)) && Resident(SwapIn(c, key).table, key)
    ensures SwapIn(c, key).backing == c.backing && SwapIn(c, key).pageSize == c.pageSize
  {
    MakeRoomValid(c, key);
    MapValid(MakeRoom(c, key), key);
  }

  lemma PinValid(c: Cache, key: PageKey)
    requires Valid(c) && key in c.backing
    ensures Valid(Pin(c, key)) && Resident(Pin(c, key).table, key)
    ensures Pin(c, key).backing == c.backing && Pin(c, key).pageSize == c.pageSize
  {
    hide Valid, WellFormed, Resident, SwapIn;
    var s := c.stats;
    StatsValid(c, s.(nrefs := s.nrefs + 1, hits := s.hits + 1));
    StatsValid(c, s.(nrefs := s.nrefs + 1));
    if !Resident(c.table, key) {
      SwapInValid(c.(stats := s.(nrefs := s.nrefs + 1)), key);
    }
  }

  lemma StatsValid(c: Cache, stats: Stats)
    requires Valid(c)
    ensures Valid(c.(stats := stats))
  {
  }

  /** An update that keeps what every frame holds keeps the cache valid. */
  lemma RetagValid(c: Cache, t: Table)
    requires Valid(c) && SameBindings(c.table, t)
    ensures Valid(c.(table := t))
  {
    SameBindingsKeep(c.table, t);
  }

  lemma TouchValid(c: Cache, key: PageKey, write: bool)
    requires Valid(c) && Resident(c.table, key)
    ensures Valid(Touch(c, key, write))
    ensures forall k :: Resident(Touch(c, key, write).table, k) <==> Resident(c.table, k)
    ensures FrameOf(Touch(c, key, write).table, key) == FrameOf(c.table, key)
  {
    SameBindingsKeep(c.table, Reference(c.table, key, write));
    RetagValid(c, Reference(c.table, key, write));
  }

  lemma AgeValid(c: Cache)
    requires Valid(c)
    ensures Valid(AgeIfNeeded(c))
  {
    RetagValid(c, AgeAll(c.table));
  }

  lemma FreeValid(c: Cache, key: PageKey)
    requires Valid(c)
    ensures Valid(FreePage(c, key))
  {
    RemoveWellFormed(c.table, key);
    var d := FreePage(c, key);
    forall i | 0 <= i < |d.table.slots| && d.table.slots[i].Held? ensures d.table.slots[i].key in d.backing {
      assert HeldAt(d.table, d.table.slots[i].key, i);
    }
  }

  // ---------------------------------------------------------------- coherence, step by step

  /**
   The frame rule of coherence: from `c` to `d` only page `key` changed, in the table, in memory, on
   the disk and in the flat memory, and `key` itself is coherent in `d`.
   */
  lemma OnlyPage(c: Cache, w: Flat, loading: Option<PageKey>, d: Cache, w': Flat, loading': Option<PageKey>,
      key: PageKey)
    requires Valid(c) && Valid(d) && Coherent(c, w, loading)
    requires loading in {None, Some(key)} && loading' in {None, Some(key)}
    requires w'.Keys == d.backing.Keys
    requires forall k :: k != key && k in w' ==> k in w && w'[k] == w[k] && d.backing[k] == c.backing[k]
    requires forall k :: k != key && k in w' ==> d.disk[d.backing[k]] == c.disk[c.backing[k]]
    requires forall i :: 0 <= i < |d.table.slots| && d.table.slots[i].Held? && d.table.slots[i].key != key ==>
      i < |c.table.slots| && d.table.slots[i] == c.table.slots[i] && d.mem[i] == c.mem[i]
    requires forall k :: k != key && Resident(c.table, k) ==> Resident(d.table, k)
    requires forall i :: HeldAt(d.table, key, i) ==> FrameCoherent(d, w', loading', i)
    requires key in w' && !Resident(d.table, key) ==> Stored(d, w', key)
    ensures Coherent(d, w', loading')
  {
    forall i | 0 <= i < |d.table.slots| && d.table.slots[i].Held? ensures FrameCoherent(d, w', loading', i) {
      if d.table.slots[i].key == key {
        assert HeldAt(d.table, key, i);
      } else {
        assert FrameCoherent(c, w, loading, i);
      }
    }
    forall k | k in w' && !Resident(d.table, k) ensures Stored(d, w', k) {
      if k != key { assert Stored(c, w, k); }
    }
  }

  /** After Add or Remove of `key`, the slots that hold other pages are as they were. */
  lemma OthersKeepSlots(t: Table, u: Table, key: PageKey)
    requires forall k, i :: k != key && HeldAt(u, k, i) ==> HeldAt(t, k, i) && u.slots[i] == t.slots[i]
    ensures forall i :: 0 <= i < |u.slots| && u.slots[i].Held? && u.slots[i].key != key ==>
      i < |t.slots| && u.slots[i] == t.slots[i]
  {
    forall i | 0 <= i < |u.slots| && u.slots[i].Held? && u.slots[i].key != key
      ensures i < |t.slots| && u.slots[i] == t.slots[i]
    {
      assert HeldAt(u, u.slots[i].key, i);
    }
  }

  lemma SyncToCoherent(c: Cache, w: Flat, loading: Option<PageKey>, key: PageKey)
    requires Valid(c) && Coherent(c, w, loading)
    requires Resident(c.table, key) && loading == None
    ensures Valid(SyncTo(c, key)) && Coherent(SyncTo(c, key), w, loading)
    ensures Stored(SyncTo(c, key), w, key)
  {
    SyncToValid(c, key);
    var d := SyncTo(c, key);
    var f := FrameOf(c.table, key);
    assert FrameCoherent(c, w, loading, f);
    assert Stored(d, w, key);
    forall i | HeldAt(d.table, key, i) ensures FrameCoherent(d, w, loading, i) {
      FrameIs(c.table, key, i);
    }
    OnlyPage(c, w, loading, d, w, loading, key);
  }

  /** A page whose disk copy is complete can be unmapped without loss. */
  lemma UnmapCoherent(c: Cache, w: Flat, key: PageKey)
    requires Valid(c) && Coherent(c, w, None) && Stored(c, w, key)
    ensures Valid(Unmap(c, key)) && Coherent(Unmap(c, key), w, None)
    ensures !Resident(Unmap(c, key).table, key)
  {
    UnmapValid(c, key);
    RemoveWellFormed(c.table, key);
    var d := Unmap(c, key);
    OthersKeepSlots(c.table, d.table, key);
    assert Stored(d, w, key);
    OnlyPage(c, w, None, d, w, None, key);
  }

  /** The skipped write-back of a clean page loses nothing: eviction keeps every written byte. */
  lemma EvictCoherent(c: Cache, w: Flat, victim: PageKey)
    requires Valid(c) && Coherent(c, w, None) && Resident(c.table, victim)
    ensures Valid(Evict(c, victim)) && Coherent(Evict(c, victim), w, None)
    ensures !Resident(Evict(c, victim).table, victim)
  {
    SyncToCoherent(c, w, None, victim);
    UnmapCoherent(SyncTo(c, victim), w, victim);
  }

  lemma MapCoherent(c: Cache, w: Flat, key: PageKey)
    requires Valid(c) && Coherent(c, w, None)
    requires key in c.backing && !Resident(c.table, key) && c.table.free != []
    ensures Valid(MapPage(c, key)) && Coherent(MapPage(c, key), w, Some(key))
    ensures Resident(MapPage(c, key).table, key)
  {
    MapValid(c, key);
    AddWellFormed(c.table, key);
    var d := MapPage(c, key);
    OthersKeepSlots(c.table, d.table, key);
    assert Stored(c, w, key);
    assert Stored(d, w, key);
    forall i | HeldAt(d.table, key, i) ensures FrameCoherent(d, w, Some(key), i) {
      FrameIs(d.table, key, i);
      FrameIs(d.table, key, c.table.free[0]);
    }
    OnlyPage(c, w, None, d, w, Some(key), key);
  }

  lemma LoadCoherent(c: Cache, w: Flat, key: PageKey)
    requires Valid(c) && Coherent(c, w, Some(key)) && Resident(c.table, key)
    ensures Valid(Load(c, key)) && Coherent(Load(c, key), w, None)
  {
    var d := Load(c, key);
    assert FrameCoherent(c, w, Some(key), FrameOf(c.table, key));
    assert Stored(d, w, key);
    forall i | HeldAt(d.table, key, i) ensures FrameCoherent(d, w, None, i) {
      FrameIs(c.table, key, i);
    }
    OnlyPage(c, w, Some(key), d, w, None, key);
  }

  /** The statistics play no part in coherence. */
  lemma StatsCoherent(c: Cache, w: Flat, loading: Option<PageKey>, stats: Stats)
    requires Valid(c) && Coherent(c, w, loading)
    ensures Valid(c.(stats := stats)) && Coherent(c.(stats := stats), w, loading)
  {
    var d := c.(stats := stats);
    forall i | 0 <= i < |d.table.slots| && d.table.slots[i].Held? ensures FrameCoherent(d, w, loading, i) {
      assert FrameCoherent(c, w, loading, i);
    }
    forall k | k in w && !Resident(d.table, k) ensures Stored(d, w, k) {
      assert Stored(c, w, k);
    }
  }

  lemma MakeRoomCoherent(c: Cache, w: Flat, key: PageKey)
    requires Valid(c) && Coherent(c, w, None) && !Resident(c.table, key)
    ensures Valid(MakeRoom(c, key)) && Coherent(MakeRoom(c, key), w, None)
  {
    if c.table.free == [] { EvictCoherent(c, w, Victim(c, key)); }
  }

  lemma SwapInCoherent(c: Cache, w: Flat, key: PageKey)
    requires Valid(c) && Coherent(c, w, None) && !Resident(c.table, key) && key in c.backing
    ensures Valid(SwapIn(c, key)) && Coherent(SwapIn(c, key), w, None)
  {
    hide Evict, Coherent, FrameCoherent, MakeRoom, Victim;
    MakeRoomValid(c, key);
    MakeRoomCoherent(c, w, key);
    var room := MakeRoom(c, key);
    MapCoherent(room, w, key);
    LoadCoherent(MapPage(room, key), w, key);
    var r := Load(MapPage(room, key), key);
    StatsCoherent(r, w, None, r.stats.(swapIns := r.stats.swapIns + 1));
  }

  lemma PinCoherent(c: Cache, w: Flat, key: PageKey)
    requires Valid(c) && Coherent(c, w, None) && key in c.backing
    ensures Valid(Pin(c, key)) && Coherent(Pin(c, key), w, None)
  {
    hide Coherent, SwapIn;
    if Resident(c.table, key) {
      StatsCoherent(c, w, None, c.stats.(nrefs := c.stats.nrefs + 1, hits := c.stats.hits + 1));
    } else {
      var st := c.stats.(nrefs := c.stats.nrefs + 1);
      StatsCoherent(c, w, None, st);
      SwapInCoherent(c.(stats := st), w, key);
    }
  }

  /** Nor do the allocation bits of pages that back nothing. */
  lemma UsedCoherent(c: Cache, w: Flat, loading: Option<PageKey>, used: seq<bool>)
    requires Valid(c) && Coherent(c, w, loading) && |used| == |c.used|
    requires forall k :: k in c.backing ==> used[c.backing[k]]
    ensures Valid(c.(used := used)) && Coherent(c.(used := used), w, loading)
  {
    var d := c.(used := used);
    forall i | 0 <= i < |d.table.slots| && d.table.slots[i].Held? ensures FrameCoherent(d, w, loading, i) {
      assert FrameCoherent(c, w, loading, i);
    }
    forall k | k in w && !Resident(d.table, k) ensures Stored(d, w, k) {
      assert Stored(c, w, k);
    }
  }

  /** Setting reference and dirty bits and ages, but clearing no dirty bit, keeps coherence. */
  lemma RetagCoherent(c: Cache, w: Flat, loading: Option<PageKey>, t: Table)
    requires Valid(c) && Coherent(c, w, loading) && SameBindings(c.table, t)
    requires forall i :: 0 <= i < |t.slots| && t.slots[i].Held? && c.table.slots[i].dirty ==> t.slots[i].dirty
    requires forall i :: 0 <= i < |t.slots| && t.slots[i].Held? && Some(t.slots[i].key) == loading ==> !t.slots[i].dirty
    ensures Valid(c.(table := t)) && Coherent(c.(table := t), w, loading)
  {
    var d := c.(table := t);
    RetagValid(c, t);
    SameBindingsKeep(c.table, t);
    forall i | 0 <= i < |d.table.slots| && d.table.slots[i].Held? ensures FrameCoherent(d, w, loading, i) {
      assert FrameCoherent(c, w, loading, i);
      assert Stored(c, w, t.slots[i].key) ==> Stored(d, w, t.slots[i].key);
    }
    forall k | k in w && !Resident(d.table, k) ensures Stored(d, w, k) {
      assert Stored(c, w, k);
    }
  }

  lemma TouchCoherent(c: Cache, w: Flat, key: PageKey, write: bool)
    requires Valid(c) && Coherent(c, w, None) && Resident(c.table, key)
    ensures Valid(Touch(c, key, write)) && Coherent(Touch(c, key, write), w, None)
    ensures Resident(Touch(c, key, write).table, key)
    ensures SlotOf(Touch(c, key, write), key) == Touched(SlotOf(c, key), write)
  {
    var t := Reference(c.table, key, write);
    RetagCoherent(c, w, None, t);
    StatsCoherent(c.(table := t), w, None, Touch(c, key, write).stats);
    TouchValid(c, key, write);
  }

  lemma AgeCoherent(c: Cache, w: Flat)
    requires Valid(c) && Coherent(c, w, None)
    ensures Valid(AgeIfNeeded(c)) && Coherent(AgeIfNeeded(c), w, None)
  {
    var t := AgeAll(c.table);
    RetagCoherent(c, w, None, t);
    StatsCoherent(c.(table := t), w, None, AgeIfNeeded(c).stats);
  }

  /** Bytes copied into the frame of a dirty page are its written bytes from then on. */
  /** The patched frame is complete for the patched bytes. */
  lemma PatchedFrame(c: Cache, w: Flat, key: PageKey, off: nat, bytes: seq<Byte>)
    requires Valid(c) && Coherent(c, w, None)
    requires Resident(c.table, key) && SlotOf(c, key).dirty && off + |bytes| <= c.pageSize
    ensures key in w
    ensures var f := FrameOf(c.table, key);
      FrameCoherent(PatchFrame(c, f, off, bytes), w[key := PatchWritten(w[key], off, bytes)], None, f)
  {
    assert FrameCoherent(c, w, None, FrameOf(c.table, key));
  }

  lemma PatchCoherent(c: Cache, w: Flat, key: PageKey, off: nat, bytes: seq<Byte>)
    requires Valid(c) && Coherent(c, w, None)
    requires Resident(c.table, key) && SlotOf(c, key).dirty && off + |bytes| <= c.pageSize
    ensures key in w
    ensures var d := PatchFrame(c, FrameOf(c.table, key), off, bytes);
      Valid(d) && Coherent(d, w[key := PatchWritten(w[key], off, bytes)], None)
  {
    var d := PatchFrame(c, FrameOf(c.table, key), off, bytes);
    PatchedFrame(c, w, key, off, bytes);
    var w' := w[key := PatchWritten(w[key], off, bytes)];
    assert w'.Keys == w.Keys;
    forall i | HeldAt(d.table, key, i) ensures FrameCoherent(d, w', None, i) {
      FrameIs(c.table, key, i);
    }
    hide FrameCoherent, PatchWritten, Patch;
    assert forall k :: k != key && k in w' ==> d.disk[d.backing[k]] == c.disk[c.backing[k]];
    OnlyPage(c, w, None, d, w', None, key);
  }

  lemma AccessCoherent(c: Cache, w: Flat, key: PageKey, write: bool)
    requires Valid(c) && Coherent(c, w, None) && key in c.backing
    ensures Coherent(Access(c, key, write), w, None)
    ensures write ==> SlotOf(Access(c, key, write), key).dirty
  {
    PinValid(c, key);
    PinCoherent(c, w, key);
    TouchCoherent(Pin(c, key), w, key, write);
  }

  /** A read returns the last value written to every byte written since its page was allocated. */
  lemma ReadCoherent(c: Cache, w: Flat, key: PageKey, off: nat, n: nat)
    requires Valid(c) && Coherent(c, w, None) && key in c.backing && off + n <= c.pageSize
    ensures Valid(Read(c, key, off, n).0) && Coherent(Read(c, key, off, n).0, w, None)
    ensures key in w && |Read(c, key, off, n).1| == n
    ensures forall i :: 0 <= i < n && off + i in w[key] ==> Read(c, key, off, n).1[i] == w[key][off + i]
  {
    AccessCoherent(c, w, key, false);
    var a := Access(c, key, false);
    assert FrameCoherent(a, w, None, FrameOf(a.table, key));
    AgeCoherent(a, w);
  }

  lemma WriteCoherent(c: Cache, w: Flat, key: PageKey, off: nat, bytes: seq<Byte>)
    requires Valid(c) && Coherent(c, w, None) && key in c.backing && off + |bytes| <= c.pageSize
    ensures key in w
    ensures Valid(Write(c, key, off, bytes))
    ensures Coherent(Write(c, key, off, bytes), w[key := PatchWritten(w[key], off, bytes)], None)
  {
    AccessCoherent(c, w, key, true);
    var a := Access(c, key, true);
    PatchCoherent(a, w, key, off, bytes);
    AgeCoherent(PatchFrame(a, FrameOf(a.table, key), off, bytes), w[key := PatchWritten(w[key], off, bytes)]);
  }

  lemma AllocValid(c: Cache, key: PageKey, diskPage: nat)
    requires Valid(c) && key !in c.backing
    requires diskPage < |c.used| && c.used[diskPage] && diskPage !in c.backing.Values
    ensures !Resident(c.table, key)
    ensures Valid(AllocPage(c, key, diskPage))
    ensures forall k, i :: k != key ==> (HeldAt(AllocPage(c, key, diskPage).table, k, i) <==> HeldAt(c.table, k, i))
  {
    assert forall k :: k in c.backing ==> c.backing[k] in c.backing.Values;
    if c.table.free != [] { AddWellFormed(c.table, key); }
    HeldKeysFollow(c, AllocPage(c, key, diskPage));
  }

  lemma AllocCoherent(c: Cache, w: Flat, key: PageKey, diskPage: nat)
    requires Valid(c) && Coherent(c, w, None) && key !in c.backing
    requires diskPage < |c.used| && c.used[diskPage] && diskPage !in c.backing.Values
    ensures Valid(AllocPage(c, key, diskPage))
    ensures Coherent(AllocPage(c, key, diskPage), w[key := map[]], None)
  {
    var d, w' := AllocPage(c, key, diskPage), w[key := map[]];
    AllocValid(c, key, diskPage);
    AllocKeepsSlots(c, key, diskPage);
    FreshIsStored(c, w, key, diskPage);
    FreshIsCoherent(c, w, key, diskPage);
    BackingInRange(c);
    assert w.Keys == c.backing.Keys;
    hide Valid, WellFormed, Stored, FrameCoherent, Coherent;
    assert forall k :: k != key && Resident(c.table, k) ==> HeldAt(d.table, k, FrameOf(c.table, k));
    OnlyPage(c, w, None, d, w', None, key);
  }

  lemma AllocKeepsSlots(c: Cache, key: PageKey, diskPage: nat)
    requires Valid(c) && key !in c.backing
    ensures var t, u := c.table, AllocPage(c, key, diskPage).table;
      && (forall i :: 0 <= i < |u.slots| && u.slots[i].Held? && u.slots[i].key != key ==>
            i < |t.slots| && u.slots[i] == t.slots[i])
      && (forall i :: HeldAt(u, key, i) ==> i < |c.mem| && !u.slots[i].dirty)
  {
  }

  /** A fresh page has no written bytes, so its disk page holds them all. */
  lemma FreshIsStored(c: Cache, w: Flat, key: PageKey, diskPage: nat)
    requires Valid(c) && diskPage < |c.used|
    ensures Stored(AllocPage(c, key, diskPage), w[key := map[]], key)
  {
  }

  lemma FreshIsCoherent(c: Cache, w: Flat, key: PageKey, diskPage: nat)
    requires Valid(c) && key !in c.backing && diskPage < |c.used|
    ensures var d := AllocPage(c, key, diskPage);
      forall i :: HeldAt(d.table, key, i) ==> FrameCoherent(d, w[key := map[]], None, i)
  {
    AllocKeepsSlots(c, key, diskPage);
    FreshIsStored(c, w, key, diskPage);
    hide Valid, WellFormed, Stored;
  }

  lemma BackingInRange(c: Cache)
    requires Valid(c)
    ensures forall k :: k in c.backing ==> 0 <= c.backing[k] < |c.disk|
  {
  }

  lemma FreeCoherent(c: Cache, w: Flat, key: PageKey)
    requires Valid(c) && Coherent(c, w, None) && key in c.backing
    ensures Valid(FreePage(c, key)) && Coherent(FreePage(c, key), w - {key}, None)
  {
    RemoveWellFormed(c.table, key);
    var d := FreePage(c, key);
    OthersKeepSlots(c.table, d.table, key);
    forall i | 0 <= i < |d.table.slots| && d.table.slots[i].Held? ensures d.table.slots[i].key in d.backing {
      assert HeldAt(d.table, d.table.slots[i].key, i);
    }
    OnlyPage(c, w, None, d, w - {key}, None, key);
  }
}
