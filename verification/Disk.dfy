/** The simulated disk of vmsim/disk.c: an array of bytes and a bitmap of allocated pages. */
module Disks {
  import opened VmTypes
  import opened Bitmaps
  import opened Cache

  /** Page `i` of a flat array of pages of `size` bytes. */
  function PageAt(data: seq<Byte>, size: nat, i: nat): (p: Page)
    requires (i + 1) * size <= |data|
    ensures |p| == size
  {
    data[i * size..(i + 1) * size]
  }

  /** A flat array of `n` pages as a sequence of pages. */
  function PagesOf(data: seq<Byte>, size: nat, n: nat): (ps: seq<Page>)
    requires n * size == |data|
    ensures |ps| == n
    ensures forall i :: 0 <= i < n ==> PageEnd(i, n, size) && ps[i] == PageAt(data, size, i)
  {
    seq(n, i requires 0 <= i < n => assert PageEnd(i, n, size); PageAt(data, size, i))
  }

  /** The end of page `i` is within `n` pages. */
  predicate PageEnd(i: nat, n: nat, size: nat)
    requires i < n
    ensures PageEnd(i, n, size) && (i + 1) * size <= n * size
  {
    assert (i + 1) * size <= n * size by { assert n * size == (i + 1) * size + (n - i - 1) * size; }
    true
  }

  /** A sequence with `bytes` spliced in at `at`. */
  predicate Spliced(s: seq<Byte>, s': seq<Byte>, at: nat, bytes: seq<Byte>) {
    |s'| == |s| && at + |bytes| <= |s| && s' == s[..at] + bytes + s[at + |bytes|..]
  }

  /** A slice around the splice is patched ... */
  lemma SpliceInside(s: seq<Byte>, s': seq<Byte>, at: nat, bytes: seq<Byte>, lo: nat, hi: nat)
    requires Spliced(s, s', at, bytes) && lo <= at && at + |bytes| <= hi <= |s|
    ensures s'[lo..hi] == Patch(s[lo..hi], at - lo, bytes)
  {
    hide Patch;
    var p := Patch(s[lo..hi], at - lo, bytes);
    forall j | 0 <= j < hi - lo ensures s'[lo..hi][j] == p[j] {}
  }

  /** ... and one beside it is unchanged. */
  lemma SpliceOutside(s: seq<Byte>, s': seq<Byte>, at: nat, bytes: seq<Byte>, lo: nat, hi: nat)
    requires Spliced(s, s', at, bytes) && lo <= hi <= |s| && (hi <= at || at + |bytes| <= lo)
    ensures s'[lo..hi] == s[lo..hi]
  {
  }

  /** Pages begin where the page before them ends. */
  lemma PageStart(j: nat, i: nat, size: nat)
    requires j < i
    ensures (j + 1) * size == j * size + size <= i * size && (i + 1) * size == i * size + size
  {
    assert (j + 1) * size <= i * size;
  }

  lemma OnePageChanges(data: seq<Byte>, data': seq<Byte>, size: nat, n: nat, i: nat, off: nat, bytes: seq<Byte>, j: nat)
    requires n * size == |data| == |data'| && i < n && j < n && off + |bytes| <= size
    requires Spliced(data, data', i * size + off, bytes)
    ensures var ps := PagesOf(data, size, n);
      PagesOf(data', size, n)[j] == if j == i then Patch(ps[i], off, bytes) else ps[j]
  {
    hide Patch, Spliced;
    assert PageEnd(i, n, size) && PageEnd(j, n, size);
    if j == i {
      PageStart(i, i + 1, size);
      SpliceInside(data, data', i * size + off, bytes, i * size, (i + 1) * size);
    } else {
      if j < i { PageStart(j, i, size); } else { PageStart(i, j, size); }
      SpliceOutside(data, data', i * size + off, bytes, j * size, (j + 1) * size);
    }
  }

  /** Copying `bytes` to offset `off` of page `i` patches that page and no other. */
  lemma CopyToPage(data: seq<Byte>, data': seq<Byte>, size: nat, n: nat, i: nat, off: nat, bytes: seq<Byte>)
    requires n * size == |data| == |data'| && i < n && off + |bytes| <= size
    requires i * size + off + |bytes| <= |data|
    requires data' == data[..i * size + off] + bytes + data[i * size + off + |bytes|..]
    ensures PagesOf(data', size, n) == PagesOf(data, size, n)[i := Patch(PagesOf(data, size, n)[i], off, bytes)]
  {
    assert Spliced(data, data', i * size + off, bytes);
    hide Patch, Spliced, PagesOf;
    var ps, ps' := PagesOf(data, size, n), PagesOf(data', size, n);
    forall j | 0 <= j < n ensures ps'[j] == ps[i := Patch(ps[i], off, bytes)][j] {
      OnePageChanges(data, data', size, n, i, off, bytes, j);
    }
  }

  /** memcpy of `n` bytes between two arrays. */
  method CopyBytes(src: array<Byte>, from: nat, dst: array<Byte>, to: nat, n: nat)
    requires src != dst && from + n <= src.Length && to + n <= dst.Length
    modifies dst
    ensures dst[..] == old(dst[..to]) + src[from..from + n] + old(dst[to + n..])
  {
    forall i | 0 <= i < n { dst[to + i] := src[from + i]; }
  }

  lemma SetRangeNone(used: seq<bool>, start: nat, value: bool)
    requires start <= |used|
    ensures SetRange(used, start, 0, value) == used
  {
  }

  lemma SetRangeNext(used: seq<bool>, start: nat, n: nat, value: bool)
    requires start + n < |used|
    ensures SetRange(used, start, n, value)[start + n := value] == SetRange(used, start, n + 1, value)
  {
  }

  class Disk {
    const data: array<Byte>
    const npages: int
    const pageSize: int
    const processBlockSize: int
    const allocBitmap: Bitmap

    ghost predicate Valid() {
      && npages > 0 && pageSize > 0 && processBlockSize > 0
      && data.Length == npages * pageSize
      && allocBitmap.Valid() && allocBitmap.size == npages && allocBitmap.data != data
    }

    ghost function Pages(): (ps: seq<Page>)
      requires Valid()
      reads data
      ensures |ps| == npages
    {
      PagesOf(data[..], pageSize, npages)
    }

    function Used(): (bits: seq<bool>)
      requires Valid()
      reads allocBitmap.data
      ensures |bits| == npages
    {
      allocBitmap.Bits()
    }

    constructor (npages: int, pageSize: int, blockSize: int)
      requires npages > 0 && pageSize > 0 && blockSize > 0
      ensures Valid() && fresh(data) && fresh(allocBitmap.data)
      ensures this.npages == npages && this.pageSize == pageSize && processBlockSize == blockSize
      ensures Pages() == seq(npages, _ => seq(pageSize, _ => 0)) && Used() == seq(npages, _ => false)
    {
      this.npages, this.pageSize, processBlockSize := npages, pageSize, blockSize;
      data := new Byte[npages * pageSize](_ => 0);
      allocBitmap := new Bitmap(npages);
      new;
      forall i | 0 <= i < npages ensures Pages()[i] == seq(pageSize, _ => 0) {
        assert PageEnd(i, npages, pageSize);
      }
    }

    predicate IsPageAllocated(page: int)
      requires Valid() && page < npages
      reads allocBitmap.data
    {
      page >= 0 && Used()[page]
    }

    /** Copy a disk page to offset `at` of a buffer; fail on a page that is not allocated. */
    method GetPage(page: int, buf: array<Byte>, at: nat) returns (err: ErrCode)
      requires Valid() && page < npages
      requires buf != data && buf != allocBitmap.data && at + pageSize <= buf.Length
      modifies buf
      ensures err == if old(IsPageAllocated(page)) then EcSuccess else EcFail
      ensures buf[..] == if old(IsPageAllocated(page))
        then old(buf[..at]) + Pages()[page] + old(buf[at + pageSize..]) else old(buf[..])
    {
      if page < 0 { return EcFail; }
      var bit := allocBitmap.Get(page);
      if !bit { return EcFail; }
      assert PageEnd(page, npages, pageSize);
      CopyBytes(data, page * pageSize, buf, at, pageSize);
      err := EcSuccess;
    }

    /** Replace a disk page by the bytes at offset `at` of a buffer; fail on a page that is not allocated. */
    method SetPage(page: int, buf: array<Byte>, at: nat) returns (err: ErrCode)
      requires Valid() && page < npages
      requires buf != data && buf != allocBitmap.data && at + pageSize <= buf.Length
      modifies data
      ensures err == if IsPageAllocated(page) then EcSuccess else EcFail
      ensures Pages() == if IsPageAllocated(page) then old(Pages())[page := buf[at..at + pageSize]] else old(Pages())
    {
      if page < 0 { return EcFail; }
      var bit := allocBitmap.Get(page);
      if !bit { return EcFail; }
      assert PageEnd(page, npages, pageSize);
      CopyBytes(buf, at, data, page * pageSize, pageSize);
      CopyToPage(old(data[..]), data[..], pageSize, npages, page, 0, buf[at..at + pageSize]);
      err := EcSuccess;
    }

    method HasEnoughConsecutivePages(start: nat, n: nat) returns (r: bool)
      requires Valid()
      ensures r <==> ClearRange(Used(), start, n)
    {
      if start + n > npages {
        return false;
      }
      var i := 0;
      while i < n
        invariant 0 <= i <= n
        invariant forall d :: start <= d < start + i ==> !Used()[d]
      {
        var bit := allocBitmap.Get(start + i);
        if bit {
          return false;
        }
        i := i + 1;
      }
      r := true;
    }

    /** First fit on the first clear page only. */
    method AllocProcessBlock() returns (err: ErrCode, page: int)
      requires Valid()
      modifies allocBitmap.data
      ensures IsFirst(old(Used()), false, page)
      ensures err == if page >= 0 && ClearRange(old(Used()), page, processBlockSize) then EcSuccess else EcFail
      ensures Used() == if err == EcSuccess then SetRange(old(Used()), page, processBlockSize, true) else old(Used())
    {
      var found;
      found, page := allocBitmap.FirstClear();
      if found != EcSuccess {
        return EcFail, page;
      }
      var enough := HasEnoughConsecutivePages(page, processBlockSize);
      if !enough {
        return EcFail, page;
      }
      hide SetRange, IsFirst;
      ghost var used := Used();
      SetRangeNone(used, page, true);
      var i := 0;
      while i < processBlockSize
        invariant 0 <= i <= processBlockSize
        invariant Used() == SetRange(used, page, i, true)
      {
        SetRangeNext(used, page, i, true);
        allocBitmap.Set(page + i);
        i := i + 1;
      }
      err := EcSuccess;
    }

    method FreeProcessBlock(page: int)
      requires Valid() && 0 <= page && page + processBlockSize <= npages
      requires forall d :: page <= d < page + processBlockSize ==> Used()[d]
      modifies allocBitmap.data
      ensures Used() == SetRange(old(Used()), page, processBlockSize, false)
    {
      hide SetRange;
      ghost var used := Used();
      SetRangeNone(used, page, false);
      var i := 0;
      while i < processBlockSize
        invariant 0 <= i <= processBlockSize
        invariant Used() == SetRange(used, page, i, false)
      {
        SetRangeNext(used, page, i, false);
        allocBitmap.Clear(page + i);
        i := i + 1;
      }
    }
  }
}
