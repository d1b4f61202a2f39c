/**
 Why first fit on the first clear page is complete (the comment at vmsim/disk.c:114-123): blocks of one
 size, freed only by their start, always sit at multiples of that size.
 */
module Blocks {
  import opened VmTypes
  import opened Bitmaps
  import opened Cache
  import opened Bits

  /** The used pages are exactly those of the live blocks, block `b` being pages b*size .. (b+1)*size. */
  ghost predicate Aligned(used: seq<bool>, size: nat, live: set<nat>)
    requires size > 0
  {
    && (forall b :: b in live ==> b < |used| / size)
    && (forall i :: 0 <= i < |used| ==> (used[i] <==> i / size in live))
  }

  /** Pages of one block agree on their block number. */
  lemma BlockOf(i: nat, b: nat, size: nat)
    requires size > 0
    ensures b * size <= i < b * size + size <==> i / size == b
  {
    var q := i / size;
    assert q < b ==> (q + 1) * size <= b * size;
    assert b < q ==> (b + 1) * size <= q * size;
  }

  /** A block of pages fits exactly when its number is below the number of whole blocks. */
  lemma BlockFits(b: nat, size: nat, n: nat)
    requires size > 0
    ensures b * size + size <= n <==> b < n / size
  {
    var q := n / size;
    assert b < q ==> (b + 1) * size <= q * size;
    assert q <= b ==> q * size <= b * size;
  }

  /** The first clear page starts a block: a block with its first page used is used throughout. */
  lemma FirstClearStartsBlock(used: seq<bool>, size: nat, live: set<nat>, p: nat)
    requires size > 0 && Aligned(used, size, live) && p < |used| && IsFirst(used, false, p)
    ensures p % size == 0 && p / size !in live
  {
    var b := p / size;
    BlockOf(p, b, size);
    BlockOf(b * size, b, size);
    assert !used[b * size];
  }

  /** Blocks below the first clear page are live. */
  lemma BlocksBelowAreLive(used: seq<bool>, size: nat, live: set<nat>, p: nat, b: nat)
    requires size > 0 && Aligned(used, size, live) && p <= |used|
    requires forall i :: 0 <= i < p ==> used[i]
    requires b * size < p
    ensures b in live
  {
    BlockOf(b * size, b, size);
  }

  /** Success of the allocation of vmsim/disk.c on these bits. */
  ghost predicate Allocates(used: seq<bool>, size: nat, p: int) {
    p >= 0 && ClearRange(used, p, size)
  }

  lemma AllocKeepsAligned(used: seq<bool>, size: nat, live: set<nat>, p: int)
    requires size > 0 && Aligned(used, size, live) && IsFirst(used, false, p) && Allocates(used, size, p)
    ensures p / size !in live && Aligned(SetRange(used, p, size, true), size, live + {p / size})
  {
    FirstClearStartsBlock(used, size, live, p);
    var b := p / size;
    assert p == b * size;
    BlockFits(b, size, |used|);
    forall i | 0 <= i < |used| ensures SetRange(used, p, size, true)[i] <==> i / size in live + {b} {
      BlockOf(i, b, size);
    }
  }

  /** Allocation fails exactly when every whole block of the disk is live. */
  lemma AllocFailsWhenFull(used: seq<bool>, size: nat, live: set<nat>, p: int)
    requires size > 0 && Aligned(used, size, live) && IsFirst(used, false, p)
    ensures !Allocates(used, size, p) <==> forall b: nat :: b < |used| / size ==> b in live
  {
    if p >= 0 {
      FirstClearStartsBlock(used, size, live, p);
      var c := p / size;
      assert p == c * size;
      BlockFits(c, size, |used|);
      forall d | p <= d < p + size && d < |used| ensures !used[d] {
        BlockOf(d, c, size);
      }
      forall b: nat | b < |used| / size && c >= |used| / size ensures b in live {
        BlockFits(b, size, |used|);
        assert (b + 1) * size <= c * size by { BlockMonotone(b, c, size); }
        BlocksBelowAreLive(used, size, live, p, b);
      }
    } else {
      forall b: nat | b < |used| / size ensures b in live {
        BlockFits(b, size, |used|);
        BlocksBelowAreLive(used, size, live, |used|, b);
      }
    }
  }

  lemma BlockMonotone(b: nat, c: nat, size: nat)
    requires b < c
    ensures (b + 1) * size <= c * size
  {
  }

  /**
   Freeing keeps blocks aligned exactly when it is given the start of a block. The pages of any range of
   used pages may be freed; one that straddles two blocks leaves neither free for first fit.
   */
  lemma FreeKeepsAlignedIff(used: seq<bool>, size: nat, live: set<nat>, p: nat)
    requires size > 0 && Aligned(used, size, live) && p + size <= |used|
    requires forall d :: p <= d < p + size ==> used[d]
    ensures (exists live' :: Aligned(SetRange(used, p, size, false), size, live')) <==> p % size == 0
    ensures p % size == 0 ==> Aligned(SetRange(used, p, size, false), size, live - {p / size})
  {
    var used' := SetRange(used, p, size, false);
    var b := p / size;
    BlockOf(p, b, size);
    BlockOf(b * size, b, size);
    if p % size == 0 {
      assert p == b * size;
      forall i | 0 <= i < |used| ensures used'[i] <==> i / size in live - {b} {
        BlockOf(i, b, size);
      }
      assert Aligned(used', size, live - {b});
    } else {
      assert b * size < p;
      assert used[p] && used[b * size] && used'[b * size] && !used'[p];
    }
  }

  // ---------------------------------------------------------------- every run of the allocator

  datatype BlockOp = AllocOp | FreeOp(start: nat)

  /** One allocation or free; blocks are freed only by a start that allocation returned and that is still live. */
  ghost predicate BlockStep(size: nat, used: seq<bool>, starts: set<nat>, op: BlockOp, used': seq<bool>,
      starts': set<nat>) {
    match op
    case AllocOp =>
      exists p :: IsFirst(used, false, p)
        && if Allocates(used, size, p)
           then used' == SetRange(used, p, size, true) && starts' == starts + {p}
           else used' == used && starts' == starts
    case FreeOp(p) =>
      p in starts && p + size <= |used| && used' == SetRange(used, p, size, false) && starts' == starts - {p}
  }

  ghost predicate BlockRun(size: nat, used: seq<bool>, starts: set<nat>, ops: seq<BlockOp>, used': seq<bool>,
      starts': set<nat>)
    decreases |ops|
  {
    if ops == [] then used' == used && starts' == starts
    else exists u, st :: BlockStep(size, used, starts, ops[0], u, st) && BlockRun(size, u, st, ops[1..], used', starts')
  }

  /** The first page of a block. */
  function Start(b: nat, size: nat): nat {
    b * size
  }

  /** The starts of a set of blocks. */
  function Starts(live: set<nat>, size: nat): set<nat> {
    set b | b in live :: Start(b, size)
  }

  lemma StartIs(p: nat, b: nat, size: nat)
    requires size > 0
    ensures p == Start(b, size) <==> p % size == 0 && p / size == b
  {
    BlockOf(p, b, size);
    if p == Start(b, size) { ModUnique(p, size, b, 0); }
  }

  lemma AllocKeepsStarts(used: seq<bool>, size: nat, live: set<nat>, p: nat) returns (live': set<nat>)
    requires size > 0 && Aligned(used, size, live)
    requires IsFirst(used, false, p) && Allocates(used, size, p)
    ensures Aligned(SetRange(used, p, size, true), size, live') && Starts(live, size) + {p} == Starts(live', size)
  {
    live' := live + {p / size};
    AllocKeepsAligned(used, size, live, p);
    FirstClearStartsBlock(used, size, live, p);
    StartIs(p, p / size, size);
    hide Aligned, IsFirst, Allocates, Start;
  }

  lemma FreeKeepsStarts(used: seq<bool>, size: nat, live: set<nat>, p: nat) returns (live': set<nat>)
    requires size > 0 && Aligned(used, size, live) && p in Starts(live, size) && p + size <= |used|
    ensures Aligned(SetRange(used, p, size, false), size, live') && Starts(live, size) - {p} == Starts(live', size)
  {
    live' := live - {p / size};
    hide Start;
    var b :| b in live && p == Start(b, size);
    StartIs(p, b, size);
    BlockIsUsed(used, size, live, p);
    FreeKeepsAlignedIff(used, size, live, p);
    hide Aligned;
    forall c | c in live ensures Start(c, size) == p <==> c == b { StartIs(p, c, size); }
  }

  /** A live block is used throughout. */
  lemma BlockIsUsed(used: seq<bool>, size: nat, live: set<nat>, p: nat)
    requires size > 0 && Aligned(used, size, live) && p % size == 0 && p / size in live && p + size <= |used|
    ensures forall d :: p <= d < p + size ==> used[d]
  {
    StartIs(p, p / size, size);
    forall d | p <= d < p + size ensures used[d] { BlockOf(d, p / size, size); }
  }

  lemma StepKeepsAligned(size: nat, used: seq<bool>, starts: set<nat>, live: set<nat>,
      op: BlockOp, used': seq<bool>, starts': set<nat>) returns (live': set<nat>)
    requires size > 0 && Aligned(used, size, live) && starts == Starts(live, size)
    requires BlockStep(size, used, starts, op, used', starts')
    ensures Aligned(used', size, live') && starts' == Starts(live', size)
  {
    hide Aligned, Starts, IsFirst;
    match op
    case AllocOp =>
      var p: int :| IsFirst(used, false, p)
        && if Allocates(used, size, p)
           then used' == SetRange(used, p, size, true) && starts' == starts + {p}
           else used' == used && starts' == starts;
      if !Allocates(used, size, p) { return live; }
      live' := AllocKeepsStarts(used, size, live, p);
    case FreeOp(p) =>
      live' := FreeKeepsStarts(used, size, live, p);
  }

  /** After every run the used pages are those of disjoint aligned blocks, one per start handed out. */
  lemma {:induction false} RunKeepsAligned(size: nat, used: seq<bool>, starts: set<nat>, live: set<nat>,
      ops: seq<BlockOp>, used': seq<bool>, starts': set<nat>) returns (live': set<nat>)
    requires size > 0 && Aligned(used, size, live) && starts == Starts(live, size)
    requires BlockRun(size, used, starts, ops, used', starts')
    ensures Aligned(used', size, live') && starts' == Starts(live', size)
    decreases |ops|
  {
    hide Aligned, Starts, BlockStep;
    if ops == [] { return live; }
    var u, st :| BlockStep(size, used, starts, ops[0], u, st) && BlockRun(size, u, st, ops[1..], used', starts');
    var live1 := StepKeepsAligned(size, used, starts, live, ops[0], u, st);
    live' := RunKeepsAligned(size, u, st, live1, ops[1..], used', starts');
  }
}
