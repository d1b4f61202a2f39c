/** Splitting user addresses into page and offset (util/app_util.c) and advancing them (util/pcb_util.c). */
module Addresses {
  import opened VmTypes
  import opened Bits

  const INT_MAX: nat := 0x7FFF_FFFF

  /** The largest `s` with Pow2(s) <= n. */
  function FloorLog2(n: nat): (s: nat)
    requires n > 0
    ensures Pow2(s) <= n < 2 * Pow2(s)
  {
    if n == 1 then 0 else 1 + FloorLog2(n / 2)
  }

  /** The power of two that addresses are really split by. */
  function SplitSize(pageSize: nat): (p: nat)
    requires pageSize > 0
    ensures p > 0
  {
    Pow2(FloorLog2(pageSize))
  }

  method PageShift(pageSize: nat) returns (shift: nat)
    requires pageSize > 0
    ensures shift == FloorLog2(pageSize)
  {
    shift := 0;
    var size := pageSize;
    while size > 1
      invariant size > 0 && FloorLog2(pageSize) == shift + FloorLog2(size)
    {
      shift := shift + 1;
      size := size / 2;
    }
  }

  lemma {:induction false} Pow2Monotone(m: nat, n: nat)
    requires m <= n
    ensures Pow2(m) <= Pow2(n)
    decreases n - m
  {
    if m < n { Pow2Monotone(m + 1, n); }
  }

  /** The shift of a 32-bit page size is below 31. */
  lemma ShiftSmall(pageSize: nat)
    requires 0 < pageSize <= INT_MAX
    ensures FloorLog2(pageSize) < 31
  {
    Pow2Word();
    if FloorLog2(pageSize) >= 31 { Pow2Monotone(31, FloorLog2(pageSize)); }
  }

  /** The mask is shifted left once for each bit of the shift, in 32 bits. */
  method PageMask(pageSize: nat) returns (mask: nat)
    requires 0 < pageSize <= INT_MAX
    ensures mask == WORD - SplitSize(pageSize)
  {
    mask := 0xFFFF_FFFF;
    var shift := PageShift(pageSize);
    ShiftSmall(pageSize);
    hide FloorLog2, Pow2;
    PowersFit(0);
    var i := 0;
    while i < shift
      invariant 0 <= i <= shift && Pow2(i) <= WORD && mask == WORD - Pow2(i)
    {
      PowersFit(i + 1);
      ShiftLeftMask(i);
      mask := mask * 2 % WORD;
      i := i + 1;
    }
  }

  lemma PowersFit(i: nat)
    requires i <= 32
    ensures Pow2(i) <= WORD && Pow2(0) == 1
  {
    Pow2Word();
    Pow2Monotone(i, 32);
  }

  lemma ShiftLeftMask(i: nat)
    requires Pow2(i + 1) <= WORD
    ensures (WORD - Pow2(i)) * 2 % WORD == WORD - Pow2(i + 1)
  {
    var p := Pow2(i);
    assert Pow2(i + 1) == 2 * p && p > 0;
    ModUnique((WORD - p) * 2, WORD, 1, WORD - 2 * p);
  }

  /** The page number and the offset that an address is split into. */
  function PageOf(a: nat, pageSize: nat): nat
    requires pageSize > 0
  {
    a / SplitSize(pageSize)
  }

  function OffsetOf(a: nat, pageSize: nat): nat
    requires pageSize > 0
  {
    a % SplitSize(pageSize)
  }

  lemma DivFacts(a: nat, p: nat)
    requires p > 0
    ensures a / p * p + a % p == a && a % p < p && a / p <= a && a % p <= a
    ensures a / p == 0 <==> a < p
  {
    QuotientFacts(a, p, a / p, a % p);
  }

  lemma QuotientFacts(a: nat, p: nat, q: nat, r: nat)
    requires r < p && a == q * p + r
    ensures q <= a && r <= a
    ensures q == 0 <==> a < p
  {
    if q > 0 {
      assert q * p == (q - 1) * p + p;
      assert q * p == q * (p - 1) + q;
    }
  }

  lemma SplitFacts(a: nat, pageSize: nat)
    requires pageSize > 0
    ensures PageOf(a, pageSize) * SplitSize(pageSize) + OffsetOf(a, pageSize) == a
    ensures OffsetOf(a, pageSize) < SplitSize(pageSize) <= pageSize
    ensures PageOf(a, pageSize) <= a && OffsetOf(a, pageSize) <= a
    ensures PageOf(a, pageSize) == 0 <==> a < SplitSize(pageSize)
  {
    DivFacts(a, SplitSize(pageSize));
  }

  method PageFromAddress(pageSize: nat, address: Word) returns (page: nat)
    requires 0 < pageSize <= INT_MAX
    ensures page == PageOf(address, pageSize)
  {
    var mask := PageMask(pageSize);
    var shift := PageShift(pageSize);
    MaskFacts(pageSize, address);
    page := And(address, mask) / Pow2(shift);
  }

  lemma MaskFacts(pageSize: nat, a: Word)
    requires 0 < pageSize <= INT_MAX
    ensures SplitSize(pageSize) <= WORD
    ensures And(a, WORD - SplitSize(pageSize)) / SplitSize(pageSize) == PageOf(a, pageSize)
  {
    ShiftSmall(pageSize);
    Pow2Word();
    AndHigh(a, FloorLog2(pageSize), 32);
    MaskedDivides(a, SplitSize(pageSize));
  }

  lemma MaskedDivides(a: nat, p: nat)
    requires p > 0
    ensures (a - a % p) / p == a / p
  {
    ModUnique(a - a % p, p, a / p, 0);
  }

  method OffsetFromAddress(pageSize: nat, address: Word) returns (offset: nat)
    requires 0 < pageSize <= INT_MAX
    ensures offset == OffsetOf(address, pageSize)
  {
    var mask := PageMask(pageSize);
    var offsetMask := 0xFFFF_FFFF - mask;
    AndLow(address, FloorLog2(pageSize));
    offset := And(address, offsetMask);
  }

  function Split(userAddr: Word, pageSize: nat, pid: Word): VirtAddr
    requires pageSize > 0
  {
    SplitFacts(userAddr, pageSize);
    VirtAddr(pid, PageOf(userAddr, pageSize), OffsetOf(userAddr, pageSize))
  }

  method MakeVirtAddr(userAddr: Word, pageSize: nat, pid: Word) returns (vaddr: VirtAddr)
    requires 0 < pageSize <= INT_MAX
    ensures vaddr == Split(userAddr, pageSize, pid) && vaddr.offset < pageSize
  {
    hide PageOf, OffsetOf, SplitSize;
    var offset := OffsetFromAddress(pageSize, userAddr);
    var page := PageFromAddress(pageSize, userAddr);
    SplitFacts(userAddr, pageSize);
    vaddr := VirtAddr(pid, page, offset);
  }

  /** The position of an address in the linear memory of its process. */
  function Linear(page: nat, offset: nat, pageSize: nat): nat {
    page * pageSize + offset
  }

  lemma ProductZero(q: nat, d: nat)
    ensures q * d == 0 <==> q == 0 || d == 0
  {
  }

  /**
   The split names the byte at the user's linear address exactly when the page size is a power of two, or
   the address is below that power: with any other size the pages beyond the first are misplaced.
   */
  lemma SplitIsLinearIff(a: Word, pageSize: nat)
    requires 0 < pageSize <= INT_MAX
    ensures Linear(PageOf(a, pageSize), OffsetOf(a, pageSize), pageSize) == a <==>
            pageSize == SplitSize(pageSize) || a < SplitSize(pageSize)
  {
    hide PageOf, OffsetOf, SplitSize;
    SplitFacts(a, pageSize);
    var q, p := PageOf(a, pageSize), SplitSize(pageSize);
    assert q * pageSize == q * p + q * (pageSize - p);
    ProductZero(q, pageSize - p);
  }

  ghost predicate LinearSplit(a: Word, pageSize: nat)
    requires pageSize > 0
  {
    Linear(PageOf(a, pageSize), OffsetOf(a, pageSize), pageSize) == a
  }

  /** So every address is split linearly exactly when the page size is a power of two. */
  lemma SplitAlwaysLinearIff(pageSize: nat)
    requires 0 < pageSize <= INT_MAX
    ensures (forall a: Word :: LinearSplit(a, pageSize)) <==> exists s :: pageSize == Pow2(s)
  {
    hide PageOf, OffsetOf, Linear;
    forall a: Word ensures LinearSplit(a, pageSize) <==> pageSize == SplitSize(pageSize) || a < SplitSize(pageSize) {
      SplitIsLinearIff(a, pageSize);
    }
    var a0: Word := SplitSize(pageSize);
    assert LinearSplit(a0, pageSize) <==> pageSize == SplitSize(pageSize);
    if s :| pageSize == Pow2(s) { FloorLog2Pow2(s); }
  }

  /** Where the split goes wrong: with pages of 3 bytes address 2 is split as byte 0 of page 1, which is byte 3. */
  lemma SplitMisplaces()
    ensures !LinearSplit(2, 3) && PageOf(2, 3) == 1 && OffsetOf(2, 3) == 0
    ensures Linear(PageOf(2, 3), OffsetOf(2, 3), 3) == 3
  {
    assert FloorLog2(3) == 1 && Pow2(1) == 2;
  }

  lemma {:induction false} FloorLog2Pow2(s: nat)
    ensures FloorLog2(Pow2(s)) == s
  {
    if s > 0 { FloorLog2Pow2(s - 1); }
  }

  /** For a power of two the split is a bijection: every page and offset is the split of one address. */
  lemma SplitOnto(pageSize: nat, page: nat, offset: nat)
    requires 0 < pageSize <= INT_MAX && pageSize == SplitSize(pageSize)
    requires offset < pageSize
    ensures PageOf(Linear(page, offset, pageSize), pageSize) == page
    ensures OffsetOf(Linear(page, offset, pageSize), pageSize) == offset
  {
    hide SplitSize;
    ModUnique(page * pageSize + offset, pageSize, page, offset);
  }

  lemma SplitUnique(a: nat, pageSize: nat, page: nat, offset: nat)
    requires pageSize > 0 && pageSize == SplitSize(pageSize) && offset < pageSize && a == page * pageSize + offset
    ensures PageOf(a, pageSize) == page && OffsetOf(a, pageSize) == offset
  {
    hide SplitSize;
    ModUnique(a, pageSize, page, offset);
  }

  // ---------------------------------------------------------------- advancing

  /** How many whole pages `n` bytes are, and the rest. */
  function Carry(n: nat, pageSize: nat): nat
    requires pageSize > 0
  {
    n / pageSize
  }

  function Rest(n: nat, pageSize: nat): (r: nat)
    requires pageSize > 0
    ensures r < pageSize
  {
    n % pageSize
  }

  lemma CarryUnique(n: nat, pageSize: nat, q: nat, r: nat)
    requires pageSize > 0 && r < pageSize && n == q * pageSize + r
    ensures Carry(n, pageSize) == q && Rest(n, pageSize) == r
  {
    ModUnique(n, pageSize, q, r);
  }

  lemma CarryFacts(n: nat, pageSize: nat)
    requires pageSize > 0
    ensures n == Carry(n, pageSize) * pageSize + Rest(n, pageSize)
  {
    DivFacts(n, pageSize);
  }

  /** `k` bytes further on, with 32-bit page numbers. */
  function Ahead(addr: VirtAddr, k: nat, pageSize: nat): VirtAddr
    requires 0 < pageSize <= INT_MAX
  {
    addr.(page := (addr.page + Carry(addr.offset + k, pageSize)) % WORD, offset := Rest(addr.offset + k, pageSize))
  }

  /** Add the step to the offset, then carry whole pages one by one; both fields are 32 bits wide. */
  method AdvanceVirtAddr(addr: VirtAddr, step: nat, pageSize: nat) returns (r: VirtAddr)
    requires 0 < pageSize <= INT_MAX && step <= INT_MAX && addr.offset < pageSize
    ensures r == Ahead(addr, step, pageSize) && r.offset < pageSize
  {
    hide Carry, Rest, Carried;
    NoWrap(addr.offset + step);
    r := addr.(offset := (addr.offset + step) % WORD);
    ghost var carried: nat := 0;
    CarriedStart(addr.page, addr.offset + step, pageSize);
    while r.offset >= pageSize
      invariant r.pid == addr.pid && Carried(addr.page, addr.offset + step, pageSize, carried, r.page, r.offset)
      decreases r.offset
    {
      CarriedOnce(addr.page, addr.offset + step, pageSize, carried, r.page, r.offset);
      r := r.(page := (r.page + 1) % WORD);
      r := r.(offset := r.offset - pageSize);
      carried := carried + 1;
    }
    CarriedEnd(addr.page, addr.offset + step, pageSize, carried, r.page, r.offset);
  }

  /** Of `n` bytes `carried` pages have been moved into the page number, and `offset` are left. */
  ghost predicate Carried(page0: nat, n: nat, pageSize: nat, carried: nat, page: nat, offset: nat) {
    carried * pageSize + offset == n && page == (page0 + carried) % WORD
  }

  lemma NoWrap(n: nat)
    requires n < WORD
    ensures n % WORD == n
  {
  }

  lemma CarriedStart(page0: Word, n: nat, pageSize: nat)
    ensures Carried(page0, n, pageSize, 0, page0, n)
  {
    NoWrap(page0);
  }

  lemma CarriedOnce(page0: nat, n: nat, pageSize: nat, carried: nat, page: nat, offset: nat)
    requires Carried(page0, n, pageSize, carried, page, offset) && offset >= pageSize
    ensures Carried(page0, n, pageSize, carried + 1, (page + 1) % WORD, offset - pageSize)
  {
    PagesAdd(carried, 1, pageSize);
    WrapAdds(page0, carried, 1);
  }

  lemma CarriedEnd(page0: nat, n: nat, pageSize: nat, carried: nat, page: nat, offset: nat)
    requires pageSize > 0 && Carried(page0, n, pageSize, carried, page, offset) && offset < pageSize
    ensures page == (page0 + Carry(n, pageSize)) % WORD && offset == Rest(n, pageSize)
  {
    CarryUnique(n, pageSize, carried, offset);
  }

  /** Advancing adds exactly the step to the linear address, as long as page numbers do not run out. */
  lemma AheadIsLinear(addr: VirtAddr, k: nat, pageSize: nat)
    requires 0 < pageSize <= INT_MAX && addr.offset < pageSize
    requires addr.page + Carry(addr.offset + k, pageSize) < WORD
    ensures var r := Ahead(addr, k, pageSize);
      Linear(r.page, r.offset, pageSize) == Linear(addr.page, addr.offset, pageSize) + k
  {
    hide Carry, Rest;
    var q := Carry(addr.offset + k, pageSize);
    CarryFacts(addr.offset + k, pageSize);
    hide Linear;
    assert Ahead(addr, k, pageSize).page == addr.page + q;
    LinearSum(addr.page, q, Rest(addr.offset + k, pageSize), addr.offset, k, pageSize);
  }

  lemma PagesAdd(a: nat, b: nat, pageSize: nat)
    ensures (a + b) * pageSize == a * pageSize + b * pageSize
  {
  }

  lemma LinearSum(page: nat, q: nat, r: nat, offset: nat, k: nat, pageSize: nat)
    requires offset + k == q * pageSize + r
    ensures Linear(page + q, r, pageSize) == Linear(page, offset, pageSize) + k
  {
    PagesAdd(page, q, pageSize);
  }

  lemma AheadZero(addr: VirtAddr, pageSize: nat)
    requires 0 < pageSize <= INT_MAX && addr.offset < pageSize
    ensures Ahead(addr, 0, pageSize) == addr
  {
    hide Carry, Rest;
    CarryUnique(addr.offset, pageSize, 0, addr.offset);
    NoWrap(addr.page);
  }

  lemma AheadOffset(addr: VirtAddr, k: nat, pageSize: nat)
    requires 0 < pageSize <= INT_MAX
    ensures Ahead(addr, k, pageSize).offset < pageSize
  {
  }

  /** Two advances are one. */
  lemma AheadAdds(addr: VirtAddr, j: nat, k: nat, pageSize: nat)
    requires 0 < pageSize <= INT_MAX && addr.offset < pageSize
    ensures Ahead(Ahead(addr, j, pageSize), k, pageSize) == Ahead(addr, j + k, pageSize)
  {
    hide Carry, Rest;
    var a := addr.offset + j;
    var b := Rest(a, pageSize) + k;
    var q, r := Carry(a, pageSize), Carry(b, pageSize);
    CarryFacts(a, pageSize);
    CarryFacts(b, pageSize);
    assert (q + r) * pageSize == q * pageSize + r * pageSize;
    CarryUnique(addr.offset + (j + k), pageSize, q + r, Rest(b, pageSize));
    WrapAdds(addr.page, q, r);
  }

  lemma WrapAdds(a: nat, q: nat, r: nat)
    ensures ((a + q) % WORD + r) % WORD == (a + (q + r)) % WORD
  {
  }
}
