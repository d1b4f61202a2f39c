/** The packed bitmap of util/bitmap.c, proved to be a sequence of booleans. */
module Bitmaps {
  import opened VmTypes

  const BLOCK_SIZE: nat := 8

  /** The block with bit `k` alone set. */
  function Mask(k: nat): bv8
    requires k < BLOCK_SIZE
  {
    1 << k
  }

  predicate GetBit(block: bv8, k: nat)
    requires k < BLOCK_SIZE
  {
    block & Mask(k) != 0
  }

  lemma SetBitExact(block: bv8, k: nat, j: nat)
    requires k < BLOCK_SIZE && j < BLOCK_SIZE
    ensures GetBit(block | Mask(k), j) <==> j == k || GetBit(block, j)
  {
    MaskTable(k);
    MaskTable(j);
  }

  lemma ClearBitExact(block: bv8, k: nat, j: nat)
    requires k < BLOCK_SIZE && j < BLOCK_SIZE
    ensures GetBit(block & !Mask(k), j) <==> j != k && GetBit(block, j)
  {
    MaskTable(k);
    MaskTable(j);
  }

  lemma MaskTable(k: nat)
    requires k < BLOCK_SIZE
    ensures Mask(k) == if k == 0 then 1 else if k == 1 then 2 else if k == 2 then 4 else if k == 3 then 8
      else if k == 4 then 16 else if k == 5 then 32 else if k == 6 then 64 else 128
  {
    if k == 0 {} else if k == 1 {} else if k == 2 {} else if k == 3 {}
    else if k == 4 {} else if k == 5 {} else if k == 6 {} else {}
  }

  lemma BlockUniform(k: nat)
    requires k < BLOCK_SIZE
    ensures !GetBit(0, k) && GetBit(0xFF, k)
  {
    MaskTable(k);
  }

  /** Bit `i` of the blocks `data`. */
  predicate BitAt(data: seq<bv8>, i: nat)
    requires i / BLOCK_SIZE < |data|
  {
    GetBit(data[i / BLOCK_SIZE], i % BLOCK_SIZE)
  }

  /** The first `size` bits. */
  function BitsOf(data: seq<bv8>, size: nat): (bits: seq<bool>)
    requires size <= BLOCK_SIZE * |data|
    ensures |bits| == size
    ensures forall i :: 0 <= i < size ==> bits[i] == BitAt(data, i)
  {
    seq(size, i requires 0 <= i < size => BitAt(data, i))
  }

  /** Writing one block so that bit `idx` alone changes in it changes bit `idx` alone of the whole. */
  lemma OneBitExact(data: seq<bv8>, size: nat, idx: nat, block: bv8, value: bool)
    requires idx < size <= BLOCK_SIZE * |data|
    requires forall j :: 0 <= j < BLOCK_SIZE ==>
      (GetBit(block, j) <==> if j == idx % BLOCK_SIZE then value else GetBit(data[idx / BLOCK_SIZE], j))
    ensures BitsOf(data[idx / BLOCK_SIZE := block], size) == BitsOf(data, size)[idx := value]
  {
    hide GetBit;
    var data' := data[idx / BLOCK_SIZE := block];
    forall i | 0 <= i < size ensures BitsOf(data', size)[i] == BitsOf(data, size)[idx := value][i] {
      assert GetBit(block, i % BLOCK_SIZE) <==>
        if i % BLOCK_SIZE == idx % BLOCK_SIZE then value else GetBit(data[idx / BLOCK_SIZE], i % BLOCK_SIZE);
    }
  }

  lemma SetBlockExact(data: seq<bv8>, size: nat, idx: nat)
    requires idx < size <= BLOCK_SIZE * |data|
    ensures BitsOf(data[idx / BLOCK_SIZE := data[idx / BLOCK_SIZE] | Mask(idx % BLOCK_SIZE)], size) ==
      BitsOf(data, size)[idx := true]
  {
    hide Mask, GetBit, BitsOf;
    var b, k := data[idx / BLOCK_SIZE], idx % BLOCK_SIZE;
    forall j | 0 <= j < BLOCK_SIZE ensures GetBit(b | Mask(k), j) <==> if j == k then true else GetBit(b, j) {
      SetBitExact(b, k, j);
    }
    OneBitExact(data, size, idx, b | Mask(k), true);
  }

  lemma ClearBlockExact(data: seq<bv8>, size: nat, idx: nat)
    requires idx < size <= BLOCK_SIZE * |data|
    ensures BitsOf(data[idx / BLOCK_SIZE := data[idx / BLOCK_SIZE] & !Mask(idx % BLOCK_SIZE)], size) ==
      BitsOf(data, size)[idx := false]
  {
    hide Mask, GetBit, BitsOf;
    var b, k := data[idx / BLOCK_SIZE], idx % BLOCK_SIZE;
    forall j | 0 <= j < BLOCK_SIZE ensures GetBit(b & !Mask(k), j) <==> if j == k then false else GetBit(b, j) {
      ClearBitExact(b, k, j);
    }
    OneBitExact(data, size, idx, b & !Mask(k), false);
  }

  /** `r` is the first position of `value`, or -1 if there is none. */
  ghost predicate IsFirst(bits: seq<bool>, value: bool, r: int) {
    && -1 <= r < |bits|
    && (r >= 0 ==> bits[r] == value && forall i :: 0 <= i < r ==> bits[i] != value)
    && (r == -1 ==> forall i :: 0 <= i < |bits| ==> bits[i] != value)
  }

  /** A block in which every bit is `!value`, which find_first skips. */
  function SkipBlock(value: bool): bv8 {
    if value then 0x00 else 0xFF
  }

  lemma SkippedBlock(data: seq<bv8>, b: nat, value: bool, i: nat)
    requires b < |data| && data[b] == SkipBlock(value) && i / BLOCK_SIZE == b
    ensures BitAt(data, i) != value
  {
    BlockUniform(i % BLOCK_SIZE);
  }

  /** A block other than the skipped one has a bit of the wanted value. */
  lemma NotAllSkipped(block: bv8, value: bool)
    requires block != SkipBlock(value)
    ensures exists k :: 0 <= k < BLOCK_SIZE && GetBit(block, k) == value
  {
    MaskTable(0); MaskTable(1); MaskTable(2); MaskTable(3);
    MaskTable(4); MaskTable(5); MaskTable(6); MaskTable(7);
    assert
      || GetBit(block, 0) == value || GetBit(block, 1) == value || GetBit(block, 2) == value
      || GetBit(block, 3) == value || GetBit(block, 4) == value || GetBit(block, 5) == value
      || GetBit(block, 6) == value || GetBit(block, 7) == value;
  }

  /**
   The blocks are followed by two guard blocks: find_first reads a block before it tests its index against
   the bound, so it may look at up to two blocks past the bits. Nothing is known of the guards, nor of the
   padding bits of the last block, and every contract holds whatever they are.
   */
  class Bitmap {
    const data: array<bv8>
    const size: int

    ghost predicate Valid() {
      0 < size && data.Length == size / BLOCK_SIZE + 2
    }

    function Bits(): (bits: seq<bool>)
      requires Valid()
      reads data
      ensures |bits| == size
    {
      BitsOf(data[..], size)
    }

    constructor (nbits: int)
      requires 0 < nbits
      ensures Valid() && fresh(data) && size == nbits
      ensures Bits() == seq(nbits, _ => false)
    {
      size := nbits;
      data := new bv8[nbits / BLOCK_SIZE + 2](_ => 0);
      new;
      forall i | 0 <= i < nbits ensures !BitAt(data[..], i) {
        BlockUniform(i % BLOCK_SIZE);
      }
    }

    method FindFirst(value: bool, skipBlock: bv8) returns (idx: int)
      requires Valid() && skipBlock == SkipBlock(value)
      ensures IsFirst(Bits(), value, idx)
    {
      var blockIdx := 0;
      while data[blockIdx] == skipBlock && blockIdx <= size / BLOCK_SIZE
        invariant 0 <= blockIdx <= size / BLOCK_SIZE + 1
        invariant forall i :: 0 <= i < size && i / BLOCK_SIZE < blockIdx ==> Bits()[i] != value
        decreases size / BLOCK_SIZE + 1 - blockIdx
      {
        forall i | 0 <= i < size && i / BLOCK_SIZE == blockIdx ensures Bits()[i] != value {
          SkippedBlock(data[..], blockIdx, value, i);
        }
        blockIdx := blockIdx + 1;
      }
      if blockIdx > size / BLOCK_SIZE {
        return -1;
      }
      var block := data[blockIdx];
      var maxBitIdx := size - blockIdx * BLOCK_SIZE;
      var bitIdx := 0;
      while bitIdx < BLOCK_SIZE && bitIdx < maxBitIdx
        invariant 0 <= bitIdx <= BLOCK_SIZE && (bitIdx <= maxBitIdx)
        invariant forall i :: 0 <= i < size && i < blockIdx * BLOCK_SIZE + bitIdx ==> Bits()[i] != value
      {
        if GetBit(block, bitIdx) == value {
          return blockIdx * BLOCK_SIZE + bitIdx;
        }
        assert (blockIdx * BLOCK_SIZE + bitIdx) / BLOCK_SIZE == blockIdx
          && (blockIdx * BLOCK_SIZE + bitIdx) % BLOCK_SIZE == bitIdx;
        bitIdx := bitIdx + 1;
      }
      NotAllSkipped(block, value);
      ghost var k :| 0 <= k < BLOCK_SIZE && GetBit(block, k) == value;
      assert (blockIdx * BLOCK_SIZE + k) / BLOCK_SIZE == blockIdx && (blockIdx * BLOCK_SIZE + k) % BLOCK_SIZE == k;
      assert blockIdx * BLOCK_SIZE + k < size ==> Bits()[blockIdx * BLOCK_SIZE + k] == value;
      assert bitIdx >= maxBitIdx;
      idx := -1;
    }

    method FirstSet() returns (err: ErrCode, idx: int)
      requires Valid()
      ensures IsFirst(Bits(), true, idx)
      ensures err == if idx >= 0 then EcSuccess else EcNotFound
    {
      idx := FindFirst(true, 0x00);
      err := if idx >= 0 then EcSuccess else EcNotFound;
    }

    method FirstClear() returns (err: ErrCode, idx: int)
      requires Valid()
      ensures IsFirst(Bits(), false, idx)
      ensures err == if idx >= 0 then EcSuccess else EcNotFound
    {
      idx := FindFirst(false, 0xFF);
      err := if idx >= 0 then EcSuccess else EcNotFound;
    }

    method Set(idx: int)
      requires Valid() && 0 <= idx < size
      modifies data
      ensures Bits() == old(Bits())[idx := true]
    {
      hide Mask, BitsOf;
      SetBlockExact(data[..], size, idx);
      ghost var was := data[..];
      data[idx / BLOCK_SIZE] := data[idx / BLOCK_SIZE] | Mask(idx % BLOCK_SIZE);
      assert data[..] == was[idx / BLOCK_SIZE := was[idx / BLOCK_SIZE] | Mask(idx % BLOCK_SIZE)];
    }

    method Clear(idx: int)
      requires Valid() && 0 <= idx < size
      modifies data
      ensures Bits() == old(Bits())[idx := false]
    {
      hide Mask, BitsOf;
      ClearBlockExact(data[..], size, idx);
      ghost var was := data[..];
      data[idx / BLOCK_SIZE] := data[idx / BLOCK_SIZE] & !Mask(idx % BLOCK_SIZE);
      assert data[..] == was[idx / BLOCK_SIZE := was[idx / BLOCK_SIZE] & !Mask(idx % BLOCK_SIZE)];
    }

    method Get(idx: int) returns (bit: bool)
      requires Valid() && 0 <= idx < size
      ensures bit == Bits()[idx]
    {
      bit := GetBit(data[idx / BLOCK_SIZE], idx % BLOCK_SIZE);
    }
  }
}
