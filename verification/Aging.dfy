/** What an age means: the reference history of a page, most recent round first (vmsim/aging_daemon.c:34-41). */
module Aging {
  import opened VmTypes
  import opened PageTable
  import opened Bits

  const WIDTH: nat := 32

  /** The age after the rounds `h`, most recent first, of a page mapped before them. */
  function AgeOf(h: seq<bool>): Word {
    if h == [] then TOP_BIT else AgeStep(AgeOf(h[1..]), h[0])
  }

  /** Bits, most significant first, as a number. */
  function Value(bits: seq<bool>): nat {
    if bits == [] then 0 else (if bits[0] then Pow2(|bits| - 1) else 0) + Value(bits[1..])
  }

  /** The history, then the one bit set when the page was mapped, then zeroes: the first 32 of them. */
  function Window(h: seq<bool>): (w: seq<bool>)
    ensures |w| == WIDTH
  {
    seq(WIDTH, j requires 0 <= j => if j < |h| then h[j] else j == |h|)
  }

  lemma {:induction false} ValueBound(bits: seq<bool>)
    ensures Value(bits) < Pow2(|bits|)
  {
    if bits != [] { ValueBound(bits[1..]); }
  }

  /** Dropping the last bit halves the number. */
  lemma {:induction false} ValueHalf(bits: seq<bool>)
    requires bits != []
    ensures Value(bits) / 2 == Value(bits[..|bits| - 1])
  {
    if |bits| > 1 {
      ValueHalf(bits[1..]);
      assert bits[1..][..|bits| - 2] == bits[..|bits| - 1][1..];
      assert Pow2(|bits| - 1) == 2 * Pow2(|bits| - 2);
    } else {
      assert bits[1..] == [];
    }
  }

  lemma ValueOfZeroes(bits: seq<bool>)
    requires forall j :: 0 <= j < |bits| ==> !bits[j]
    ensures Value(bits) == 0
  {
  }

  /** An age encodes the history of its page. */
  lemma {:induction false} AgeEncodesHistory(h: seq<bool>)
    ensures AgeOf(h) == Value(Window(h))
  {
    Pow2Word();
    var w := Window(h);
    if h == [] {
      ValueOfZeroes(w[1..]);
    } else {
      AgeEncodesHistory(h[1..]);
      ValueHalf(Window(h[1..]));
      assert w[1..] == Window(h[1..])[..WIDTH - 1];
    }
  }

  /** At the first position where the two differ, `s` has a 0. */
  predicate LexLess(s: seq<bool>, t: seq<bool>)
    requires |s| == |t|
  {
    s != [] && if s[0] != t[0] then t[0] else LexLess(s[1..], t[1..])
  }

  lemma {:induction false} ValueIsLexicographic(s: seq<bool>, t: seq<bool>)
    requires |s| == |t|
    ensures Value(s) < Value(t) <==> LexLess(s, t)
  {
    if s != [] {
      ValueIsLexicographic(s[1..], t[1..]);
      ValueBound(s[1..]);
      ValueBound(t[1..]);
    }
  }

  /** Comparing ages compares histories, most recent round first, as far as 32 bits reach. */
  lemma AgeOrderIsHistoryOrder(g: seq<bool>, h: seq<bool>)
    ensures AgeOf(g) < AgeOf(h) <==> LexLess(Window(g), Window(h))
  {
    AgeEncodesHistory(g);
    AgeEncodesHistory(h);
    ValueIsLexicographic(Window(g), Window(h));
  }

  // ---------------------------------------------------------------- histories over runs

  datatype TableOp = MapOp(key: PageKey) | UnmapOp(key: PageKey) | RefOp(key: PageKey, write: bool) | AgeOp

  /**
   Since a page was mapped: the rounds it has seen, whether it was referenced since the last of them, and
   whether it was ever written.
   */
  datatype History = History(rounds: seq<bool>, since: bool, written: bool)
  {
    /** One more round. */
    function Rounded(): History {
      History([since] + rounds, false, written)
    }

    /** One more reference. */
    function Referenced(write: bool): History {
      History(rounds, true, written || write)
    }
  }

  const NEW_HISTORY := History([], false, false)

  ghost predicate LegalOp(t: Table, op: TableOp) {
    match op
    case MapOp(key) => t.free != [] && !Resident(t, key)
    case UnmapOp(key) => true
    case RefOp(key, _) => Resident(t, key)
    case AgeOp => true
  }

  ghost function TableStep(t: Table, op: TableOp): Table
    requires WellFormed(t) && LegalOp(t, op)
  {
    match op
    case MapOp(key) => Add(t, key)
    case UnmapOp(key) => Remove(t, key)
    case RefOp(key, write) => Reference(t, key, write)
    case AgeOp => AgeAll(t)
  }

  /** The same events as a log of references, without ages. */
  function HistoryStep(hs: map<PageKey, History>, op: TableOp): map<PageKey, History> {
    match op
    case MapOp(key) => hs[key := NEW_HISTORY]
    case UnmapOp(key) => hs
    case RefOp(key, write) => if key in hs then hs[key := hs[key].Referenced(write)] else hs
    case AgeOp => map key | key in hs :: hs[key].Rounded()
  }

  /** Every resident page's age, reference bit and dirty bit are those of its history. */
  ghost predicate Tracks(t: Table, hs: map<PageKey, History>) {
    forall i :: 0 <= i < |t.slots| && t.slots[i].Held? ==>
      && t.slots[i].key in hs
      && t.slots[i].age == AgeOf(hs[t.slots[i].key].rounds)
      && t.slots[i].referenced == hs[t.slots[i].key].since
      && t.slots[i].dirty == hs[t.slots[i].key].written
  }

  lemma StepTracks(t: Table, hs: map<PageKey, History>, op: TableOp)
    requires WellFormed(t) && Tracks(t, hs) && LegalOp(t, op)
    ensures WellFormed(TableStep(t, op)) && Tracks(TableStep(t, op), HistoryStep(hs, op))
  {
    match op
    case MapOp(key) =>
      AddWellFormed(t, key);
      var u := Add(t, key);
      forall i | 0 <= i < |u.slots| && u.slots[i].Held? && i != t.free[0] ensures u.slots[i].key != key {
        assert HeldAt(t, t.slots[i].key, i);
      }
    case UnmapOp(key) => RemoveWellFormed(t, key);
    case RefOp(key, write) =>
      SameBindingsKeep(t, Reference(t, key, write));
    case AgeOp =>
      SameBindingsKeep(t, AgeAll(t));
      forall i | 0 <= i < |t.slots| && t.slots[i].Held?
        ensures AgeOf([hs[t.slots[i].key].since] + hs[t.slots[i].key].rounds) ==
          AgeStep(t.slots[i].age, t.slots[i].referenced)
      {
        var h := hs[t.slots[i].key];
        assert ([h.since] + h.rounds)[1..] == h.rounds;
      }
  }

  ghost predicate LegalOps(t: Table, ops: seq<TableOp>)
    decreases |ops|
  {
    ops == [] || (WellFormed(t) && LegalOp(t, ops[0]) && LegalOps(TableStep(t, ops[0]), ops[1..]))
  }

  ghost function TableRun(t: Table, ops: seq<TableOp>): Table
    requires LegalOps(t, ops)
    decreases |ops|
  {
    if ops == [] then t else TableRun(TableStep(t, ops[0]), ops[1..])
  }

  function HistoryRun(hs: map<PageKey, History>, ops: seq<TableOp>): map<PageKey, History>
    decreases |ops|
  {
    if ops == [] then hs else HistoryRun(HistoryStep(hs, ops[0]), ops[1..])
  }

  lemma {:induction false} RunTracks(t: Table, hs: map<PageKey, History>, ops: seq<TableOp>)
    requires WellFormed(t) && Tracks(t, hs) && LegalOps(t, ops)
    ensures WellFormed(TableRun(t, ops)) && Tracks(TableRun(t, ops), HistoryRun(hs, ops))
    decreases |ops|
  {
    hide WellFormed, Tracks, TableStep, HistoryStep, LegalOp;
    if ops != [] {
      StepTracks(t, hs, ops[0]);
      RunTracks(TableStep(t, ops[0]), HistoryStep(hs, ops[0]), ops[1..]);
    }
  }

  /**
   The victim is right by history: no resident page other than the one to load has been used less recently,
   and of those used equally recently the victim is in the first frame.
   */
  lemma VictimIsLeastRecentlyUsed(t: Table, hs: map<PageKey, History>, target: PageKey)
    requires WellFormed(t) && t.free == [] && !Resident(t, target) && Tracks(t, hs)
    ensures var r := Oldest(t.slots, target, |t.slots|);
      && 0 <= r < |t.slots| && t.slots[r].Held? && t.slots[r].key != target
      && forall i :: 0 <= i < |t.slots| && t.slots[i].Held? ==>
           var mine, theirs := Window(hs[t.slots[r].key].rounds), Window(hs[t.slots[i].key].rounds);
           !LexLess(theirs, mine) && (i < r ==> LexLess(mine, theirs))
  {
    VictimExists(t, target);
    var r := Oldest(t.slots, target, |t.slots|);
    forall i | 0 <= i < |t.slots| && t.slots[i].Held?
      ensures var mine, theirs := Window(hs[t.slots[r].key].rounds), Window(hs[t.slots[i].key].rounds);
        !LexLess(theirs, mine) && (i < r ==> LexLess(mine, theirs))
    {
      assert HeldAt(t, t.slots[i].key, i);
      AgeOrderIsHistoryOrder(hs[t.slots[i].key].rounds, hs[t.slots[r].key].rounds);
      AgeOrderIsHistoryOrder(hs[t.slots[r].key].rounds, hs[t.slots[i].key].rounds);
    }
  }
}
