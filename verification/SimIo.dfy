/** Byte loops over the MMU (util/pcb_util.c:251-342): strings cross page boundaries and read back. */
module SimIo {
  import opened VmTypes
  import opened PageTable
  import C = Cache
  import opened Addresses
  import opened Mmus
  import opened Prms
  import opened MmuAccess
  import opened Runs

  /** One byte of flat memory written at an address whose page is allocated. */
  function StoreByte(w: C.Flat, a: VirtAddr, b: Byte): C.Flat {
    if a.Key() in w then w[a.Key() := C.PatchWritten(w[a.Key()], a.offset, [b])] else w
  }

  /** The `i`-th address of a loop that advances by `step`. */
  function Nth(addr: VirtAddr, step: nat, i: nat, pageSize: nat): VirtAddr
    requires 0 < pageSize <= INT_MAX
  {
    Ahead(addr, i * step, pageSize)
  }

  lemma NthNext(addr: VirtAddr, step: nat, i: nat, pageSize: nat)
    requires 0 < pageSize <= INT_MAX && addr.offset < pageSize
    ensures Nth(addr, step, 0, pageSize) == addr
    ensures Ahead(Nth(addr, step, i, pageSize), step, pageSize) == Nth(addr, step, i + 1, pageSize)
    ensures Nth(addr, step, i, pageSize).offset < pageSize
  {
    hide Ahead;
    AheadOffset(addr, i * step, pageSize);
    AheadZero(addr, pageSize);
    PagesAdd(i, 1, step);
    AheadAdds(addr, i * step, step, pageSize);
  }

  /** The first `n` bytes of `data` written `step` apart from `addr` on. */
  function StoreBytes(w: C.Flat, addr: VirtAddr, step: nat, data: seq<Byte>, n: nat, pageSize: nat): (r: C.Flat)
    requires n <= |data| && 0 < pageSize <= INT_MAX
    ensures r.Keys == w.Keys
  {
    if n == 0 then w
    else StoreByte(StoreBytes(w, addr, step, data, n - 1, pageSize), Nth(addr, step, n - 1, pageSize), data[n - 1])
  }

  /** Flat memory has byte `b` at address `a`. */
  ghost predicate ByteAt(w: C.Flat, a: VirtAddr, b: Byte) {
    a.Key() in w && a.offset in w[a.Key()] && w[a.Key()][a.offset] == b
  }

  /** The pages under `n` addresses `step` apart are all allocated. */
  ghost predicate Covered(w: C.Flat, addr: VirtAddr, step: nat, n: nat, pageSize: nat)
    requires 0 < pageSize <= INT_MAX
  {
    forall i :: 0 <= i < n ==> Nth(addr, step, i, pageSize).Key() in w
  }

  lemma StoreNone(w: C.Flat, addr: VirtAddr, step: nat, data: seq<Byte>, pageSize: nat)
    requires 0 < pageSize <= INT_MAX
    ensures StoreBytes(w, addr, step, data, 0, pageSize) == w
  {
  }

  lemma StoreNext(w: C.Flat, addr: VirtAddr, step: nat, data: seq<Byte>, n: nat, pageSize: nat)
    requires n < |data| && 0 < pageSize <= INT_MAX
    ensures StoreBytes(w, addr, step, data, n + 1, pageSize) ==
      StoreByte(StoreBytes(w, addr, step, data, n, pageSize), Nth(addr, step, n, pageSize), data[n])
  {
  }

  lemma CoveredAt(w: C.Flat, addr: VirtAddr, step: nat, n: nat, pageSize: nat, i: nat)
    requires 0 < pageSize <= INT_MAX && Covered(w, addr, step, n, pageSize) && i < n
    ensures Nth(addr, step, i, pageSize).Key() in w
  {
  }

  /** One byte written through the MMU. */
  method WriteByte(prm: Prm, addr: VirtAddr, s: array<Byte>, at: nat, ghost w: C.Flat) returns (err: ErrCode)
    requires Sound(prm.mmu, w) && prm !in prm.mmu.Repr && s !in prm.mmu.Repr
    requires addr.Key() in w && addr.offset < prm.mmu.pageSize && at < s.Length
    modifies prm, prm.mmu.Repr
    ensures Sound(prm.mmu, StoreByte(w, addr, s[at])) && err == EcSuccess
    ensures prm !in prm.mmu.Repr && s !in prm.mmu.Repr && fresh(prm.mmu.Repr - old(prm.mmu.Repr))
  {
    hide C.PatchWritten, Mmu.Shape, C.Valid;
    assert s[at..at + 1] == [s[at]];
    err := Write(prm, addr, 1, s, at, w);
  }

  /**
   sim_write: at most a page's worth of bytes, however many are asked for. The source advances its caller's
   address; here the advanced address is returned.
   */
  method SimWrite(prm: Prm, vAddr: VirtAddr, s: array<Byte>, amount: nat, ghost w: C.Flat)
      returns (err: ErrCode, a: VirtAddr)
    requires Sound(prm.mmu, w) && prm !in prm.mmu.Repr && s !in prm.mmu.Repr
    requires 0 < prm.mmu.pageSize <= INT_MAX && vAddr.offset < prm.mmu.pageSize
    requires 0 < amount <= s.Length
    requires Covered(w, vAddr, 1, Min(amount, prm.mmu.pageSize), prm.mmu.pageSize)
    modifies prm, prm.mmu.Repr
    ensures Sound(prm.mmu, StoreBytes(w, vAddr, 1, s[..], Min(amount, prm.mmu.pageSize), prm.mmu.pageSize))
      && err == EcSuccess
    ensures a == Nth(vAddr, 1, Min(amount, prm.mmu.pageSize), prm.mmu.pageSize)
    ensures prm !in prm.mmu.Repr && s !in prm.mmu.Repr && fresh(prm.mmu.Repr - old(prm.mmu.Repr))
  {
    hide Sound, StoreByte, StoreBytes, Ahead, Nth, Covered;
    var pageSize := prm.mmu.pageSize;
    var multiplier := 0;
    a := vAddr;
    NthNext(vAddr, 1, 0, pageSize);
    err := EcSuccess;
    ghost var data := s[..];
    StoreNone(w, vAddr, 1, data, pageSize);
    while multiplier < amount && multiplier < pageSize && err == EcSuccess
      invariant 0 <= multiplier <= Min(amount, pageSize) && err == EcSuccess
      invariant a == Nth(vAddr, 1, multiplier, pageSize) && a.offset < pageSize && data == s[..]
      invariant Sound(prm.mmu, StoreBytes(w, vAddr, 1, data, multiplier, pageSize))
      invariant prm !in prm.mmu.Repr && s !in prm.mmu.Repr && fresh(prm.mmu.Repr - old(prm.mmu.Repr))
    {
      StoreNext(w, vAddr, 1, data, multiplier, pageSize);
      CoveredAt(w, vAddr, 1, Min(amount, pageSize), pageSize, multiplier);
      err := WriteByte(prm, a, s, multiplier, StoreBytes(w, vAddr, 1, data, multiplier, pageSize));
      NthNext(vAddr, 1, multiplier, pageSize);
      multiplier := multiplier + 1;
      a := AdvanceVirtAddr(a, 1, pageSize);
    }
  }

  /** sim_loop_write: one byte written `amount` times, `offset` apart. */
  method SimLoopWrite(prm: Prm, vAddr: VirtAddr, c: Byte, offset: nat, amount: nat, ghost w: C.Flat)
      returns (err: ErrCode, a: VirtAddr)
    requires Sound(prm.mmu, w) && prm !in prm.mmu.Repr
    requires 0 < prm.mmu.pageSize <= INT_MAX && vAddr.offset < prm.mmu.pageSize
    requires 0 < amount && offset <= INT_MAX
    requires Covered(w, vAddr, offset, amount, prm.mmu.pageSize)
    modifies prm, prm.mmu.Repr
    ensures Sound(prm.mmu, StoreBytes(w, vAddr, offset, seq(amount, _ => c), amount, prm.mmu.pageSize))
      && err == EcSuccess
    ensures a == Nth(vAddr, offset, amount, prm.mmu.pageSize)
    ensures prm !in prm.mmu.Repr && fresh(prm.mmu.Repr - old(prm.mmu.Repr))
  {
    hide Sound, StoreByte, StoreBytes, Ahead, Nth, Covered;
    var pageSize := prm.mmu.pageSize;
    var buf := new Byte[1](_ => c);
    var multiplier := 0;
    a := vAddr;
    NthNext(vAddr, offset, 0, pageSize);
    err := EcSuccess;
    ghost var data := seq(amount, _ => c);
    StoreNone(w, vAddr, offset, data, pageSize);
    while multiplier < amount && err == EcSuccess
      invariant 0 <= multiplier <= amount && err == EcSuccess && buf[0] == c
      invariant a == Nth(vAddr, offset, multiplier, pageSize) && a.offset < pageSize
      invariant Sound(prm.mmu, StoreBytes(w, vAddr, offset, data, multiplier, pageSize))
      invariant prm !in prm.mmu.Repr && buf !in prm.mmu.Repr && fresh(prm.mmu.Repr - old(prm.mmu.Repr))
    {
      StoreNext(w, vAddr, offset, data, multiplier, pageSize);
      CoveredAt(w, vAddr, offset, amount, pageSize, multiplier);
      err := WriteByte(prm, a, buf, 0, StoreBytes(w, vAddr, offset, data, multiplier, pageSize));
      NthNext(vAddr, offset, multiplier, pageSize);
      multiplier := multiplier + 1;
      a := AdvanceVirtAddr(a, offset, pageSize);
    }
  }

  /** sim_read: `amount` bytes, `off` apart; what the source then prints is left in the buffer. */
  method SimRead(prm: Prm, vAddr: VirtAddr, off: nat, amount: nat, ghost w: C.Flat)
      returns (err: ErrCode, buf: array<Byte>, a: VirtAddr)
    requires Sound(prm.mmu, w) && prm !in prm.mmu.Repr
    requires 0 < prm.mmu.pageSize <= INT_MAX && vAddr.offset < prm.mmu.pageSize
    requires 0 < off <= INT_MAX && 0 < amount
    requires Covered(w, vAddr, off, amount, prm.mmu.pageSize)
    modifies prm, prm.mmu.Repr
    ensures Sound(prm.mmu, w) && err == EcSuccess && fresh(buf) && buf.Length == amount * off + 1 >= amount
    ensures forall i :: 0 <= i < amount ==>
      var b := Nth(vAddr, off, i, prm.mmu.pageSize);
      b.Key() in w && (b.offset in w[b.Key()] ==> buf[i] == w[b.Key()][b.offset])
    ensures a == Nth(vAddr, off, amount, prm.mmu.pageSize)
    ensures prm !in prm.mmu.Repr && buf !in prm.mmu.Repr && fresh(prm.mmu.Repr - old(prm.mmu.Repr))
  {
    hide Sound, Ahead, Nth, C.Read;
    var pageSize := prm.mmu.pageSize;
    BufferHolds(amount, off);
    buf := new Byte[amount * off + 1];
    var multiplier := 0;
    a := vAddr;
    NthNext(vAddr, off, 0, pageSize);
    err := EcSuccess;
    while multiplier < amount && err == EcSuccess
      invariant 0 <= multiplier <= amount && err == EcSuccess
      invariant a == Nth(vAddr, off, multiplier, pageSize) && a.offset < pageSize
      invariant Sound(prm.mmu, w)
      invariant prm !in prm.mmu.Repr && buf !in prm.mmu.Repr && fresh(prm.mmu.Repr - old(prm.mmu.Repr))
      invariant forall i :: 0 <= i < multiplier ==>
        var b := Nth(vAddr, off, i, pageSize);
        b.Key() in w && (b.offset in w[b.Key()] ==> buf[i] == w[b.Key()][b.offset])
    {
      err := ReadByte(prm, a, buf, multiplier, w);
      NthNext(vAddr, off, multiplier, pageSize);
      multiplier := multiplier + 1;
      a := AdvanceVirtAddr(a, off, pageSize);
    }
  }

  lemma BufferHolds(amount: nat, off: nat)
    requires off > 0
    ensures amount * off >= amount
  {
  }

  /** One byte read into a buffer, the rest of which stays as it is. */
  method ReadByte(prm: Prm, addr: VirtAddr, buf: array<Byte>, at: nat, ghost w: C.Flat) returns (err: ErrCode)
    requires Sound(prm.mmu, w) && prm !in prm.mmu.Repr && buf !in prm.mmu.Repr
    requires addr.Key() in w && addr.offset < prm.mmu.pageSize && at < buf.Length
    modifies prm, prm.mmu.Repr, buf
    ensures Sound(prm.mmu, w) && err == EcSuccess
    ensures addr.offset in w[addr.Key()] ==> buf[at] == w[addr.Key()][addr.offset]
    ensures forall i :: 0 <= i < buf.Length && i != at ==> buf[i] == old(buf[i])
    ensures prm !in prm.mmu.Repr && buf !in prm.mmu.Repr && fresh(prm.mmu.Repr - old(prm.mmu.Repr))
  {
    hide C.Read, Mmu.Shape, C.Valid;
    ghost var was := buf[..];
    err := Read(prm, addr, 1, buf, at, w);
    SpliceKeeps(was, buf[..], at);
  }

  /** A sequence with one element spliced in at `at` is otherwise unchanged. */
  lemma SpliceKeeps(s: seq<Byte>, t: seq<Byte>, at: nat)
    requires at < |s| == |t| && exists m: seq<Byte> :: t == s[..at] + m + s[at + 1..]
    ensures forall i :: 0 <= i < |s| && i != at ==> t[i] == s[i]
  {
    var m: seq<Byte> :| t == s[..at] + m + s[at + 1..];
    assert |m| == 1;
  }

  // ---------------------------------------------------------------- what is written is read back

  /** Different places in a loop with step 1 are different bytes, as long as page numbers do not run out. */
  lemma NthDistinct(addr: VirtAddr, i: nat, j: nat, n: nat, pageSize: nat)
    requires 0 < pageSize <= INT_MAX && addr.offset < pageSize
    requires i < j <= n && addr.page + Carry(addr.offset + n, pageSize) < WORD
    ensures var a, b := Nth(addr, 1, i, pageSize), Nth(addr, 1, j, pageSize);
      a.Key() != b.Key() || a.offset != b.offset
  {
    CarryMonotone(addr.offset + i, addr.offset + n, pageSize);
    CarryMonotone(addr.offset + j, addr.offset + n, pageSize);
    AheadIsLinear(addr, i * 1, pageSize);
    AheadIsLinear(addr, j * 1, pageSize);
  }

  lemma CarryMonotone(m: nat, n: nat, pageSize: nat)
    requires pageSize > 0 && m <= n
    ensures Carry(m, pageSize) <= Carry(n, pageSize)
  {
    hide Carry, Rest;
    CarryFacts(m, pageSize);
    CarryFacts(n, pageSize);
    var a, b := Carry(m, pageSize), Carry(n, pageSize);
    assert b < a ==> (b + 1) * pageSize <= a * pageSize;
  }

  lemma StoreByteExact(w: C.Flat, a: VirtAddr, b: Byte)
    requires a.Key() in w
    ensures ByteAt(StoreByte(w, a, b), a, b)
    ensures forall c, x {:trigger ByteAt(w, c, x)} ::
      ByteAt(w, c, x) && (c.Key() != a.Key() || c.offset != a.offset) ==> ByteAt(StoreByte(w, a, b), c, x)
  {
  }

  /** A string stored at consecutive addresses, across page boundaries, is there byte by byte. */
  lemma {:induction false} StoredBack(w: C.Flat, addr: VirtAddr, data: seq<Byte>, n: nat, pageSize: nat)
    requires 0 < pageSize <= INT_MAX && addr.offset < pageSize && n <= |data|
    requires addr.page + Carry(addr.offset + n, pageSize) < WORD
    requires Covered(w, addr, 1, n, pageSize)
    ensures forall i :: 0 <= i < n ==>
      ByteAt(StoreBytes(w, addr, 1, data, n, pageSize), Nth(addr, 1, i, pageSize), data[i])
    decreases n
  {
    hide Nth, StoreByte, ByteAt;
    if n > 0 {
      CarryMonotone(addr.offset + (n - 1), addr.offset + n, pageSize);
      StoredBack(w, addr, data, n - 1, pageSize);
      var w1 := StoreBytes(w, addr, 1, data, n - 1, pageSize);
      var last := Nth(addr, 1, n - 1, pageSize);
      StoreByteExact(w1, last, data[n - 1]);
      forall i | 0 <= i < n ensures ByteAt(StoreByte(w1, last, data[n - 1]), Nth(addr, 1, i, pageSize), data[i]) {
        if i < n - 1 { NthDistinct(addr, i, n - 1, n, pageSize); }
      }
    }
  }

  /** sim_loop_write leaves its byte at every address of the loop, also where the loop comes by twice. */
  lemma {:induction false} LoopStored(w: C.Flat, addr: VirtAddr, step: nat, data: seq<Byte>, c: Byte, n: nat,
      pageSize: nat)
    requires 0 < pageSize <= INT_MAX && n <= |data| && (forall i :: 0 <= i < |data| ==> data[i] == c)
    requires Covered(w, addr, step, n, pageSize)
    ensures forall i :: 0 <= i < n ==>
      ByteAt(StoreBytes(w, addr, step, data, n, pageSize), Nth(addr, step, i, pageSize), c)
    decreases n
  {
    hide Nth, StoreByte, ByteAt;
    if n > 0 {
      LoopStored(w, addr, step, data, c, n - 1, pageSize);
      var w1 := StoreBytes(w, addr, step, data, n - 1, pageSize);
      var last := Nth(addr, step, n - 1, pageSize);
      StoreByteExact(w1, last, c);
      forall i | 0 <= i < n ensures ByteAt(StoreByte(w1, last, c), Nth(addr, step, i, pageSize), c) {
        var a := Nth(addr, step, i, pageSize);
        if a.Key() == last.Key() && a.offset == last.offset { SameByte(StoreByte(w1, last, c), last, a, c); }
      }
    }
  }

  lemma SameByte(w: C.Flat, a: VirtAddr, b: VirtAddr, c: Byte)
    requires ByteAt(w, a, c) && a.Key() == b.Key() && a.offset == b.offset
    ensures ByteAt(w, b, c)
  {
  }

  /** Two flat memories agree on the byte at `a`, written or not. */
  ghost predicate SameAt(w: C.Flat, w': C.Flat, a: VirtAddr) {
    && (a.Key() in w <==> a.Key() in w')
    && (a.Key() in w ==>
          && (a.offset in w[a.Key()] <==> a.offset in w'[a.Key()])
          && (a.offset in w[a.Key()] ==> w[a.Key()][a.offset] == w'[a.Key()][a.offset]))
  }

  /** The loops change nothing but the bytes at their addresses. */
  lemma {:induction false} StoresOnly(w: C.Flat, addr: VirtAddr, step: nat, data: seq<Byte>, n: nat, pageSize: nat,
      a: VirtAddr)
    requires 0 < pageSize <= INT_MAX && n <= |data|
    requires forall i {:trigger Nth(addr, step, i, pageSize)} :: 0 <= i < n ==>
      Nth(addr, step, i, pageSize).Key() != a.Key() || Nth(addr, step, i, pageSize).offset != a.offset
    ensures SameAt(w, StoreBytes(w, addr, step, data, n, pageSize), a)
    decreases n
  {
    hide Nth;
    if n > 0 {
      StoresOnly(w, addr, step, data, n - 1, pageSize, a);
      var last := Nth(addr, step, n - 1, pageSize);
      assert last.Key() != a.Key() || last.offset != a.offset;
    }
  }

  /** An operation that does not write, allocate or free a page of process `pid`. */
  predicate Spares(op: Op, pid: nat) {
    match op
    case Alloc(key, _) => key.pid != pid
    case Free(key) => key.pid != pid
    case WriteBytes(key, _, _) => key.pid != pid
    case _ => true
  }

  lemma {:induction false} RunKeepsByte(w: C.Flat, ops: seq<Op>, a: VirtAddr, b: Byte)
    requires ByteAt(w, a, b) && forall op :: op in ops ==> Spares(op, a.pid)
    ensures ByteAt(FlatRun(w, ops), a, b)
    decreases |ops|
  {
    if ops != [] {
      assert Spares(ops[0], a.pid);
      RunKeepsByte(FlatStep(w, ops[0]), ops[1..], a, b);
    }
  }

  /**
   The string round trip: what sim_write stores, sim_read finds, over every run of other operations in
   between, whatever pages they evict and whatever other processes write.
   */
  lemma StringRoundTrip(w: C.Flat, addr: VirtAddr, data: seq<Byte>, amount: nat, pageSize: nat, ops: seq<Op>)
    requires 0 < pageSize <= INT_MAX && addr.offset < pageSize && amount <= |data|
    requires addr.page + Carry(addr.offset + Min(amount, pageSize), pageSize) < WORD
    requires Covered(w, addr, 1, Min(amount, pageSize), pageSize)
    requires forall op :: op in ops ==> Spares(op, addr.pid)
    ensures var w' := FlatRun(StoreBytes(w, addr, 1, data, Min(amount, pageSize), pageSize), ops);
      forall i :: 0 <= i < Min(amount, pageSize) ==> ByteAt(w', Nth(addr, 1, i, pageSize), data[i])
  {
    var n := Min(amount, pageSize);
    var w1 := StoreBytes(w, addr, 1, data, n, pageSize);
    StoredBack(w, addr, data, n, pageSize);
    forall i | 0 <= i < n ensures ByteAt(FlatRun(w1, ops), Nth(addr, 1, i, pageSize), data[i]) {
      assert Nth(addr, 1, i, pageSize).pid == addr.pid;
      RunKeepsByte(w1, ops, Nth(addr, 1, i, pageSize), data[i]);
    }
  }

  // ---------------------------------------------------------------- from user addresses to bytes

  /** For a power of two the `i`-th byte from a user's address on is the one the split of `address + i` names. */
  lemma NthIsSplit(address: Word, i: nat, pageSize: nat, pid: Word)
    requires 0 < pageSize <= INT_MAX && pageSize == SplitSize(pageSize) && address + i < WORD
    ensures Split(address, pageSize, pid).offset < pageSize
    ensures Nth(Split(address, pageSize, pid), 1, i, pageSize) == Split(address + i, pageSize, pid)
  {
    hide SplitSize, Carry, Rest;
    SplitFacts(address, pageSize);
    SplitFacts(address + i, pageSize);
    var q, r := PageOf(address, pageSize), OffsetOf(address, pageSize);
    hide PageOf, OffsetOf;
    CarryFacts(r + i, pageSize);
    PagesAdd(q, Carry(r + i, pageSize), pageSize);
    SplitUnique(address + i, pageSize, q + Carry(r + i, pageSize), Rest(r + i, pageSize));
    NoWrap(q + Carry(r + i, pageSize));
  }

  lemma UserStringStored(w: C.Flat, ops: seq<Op>, address: Word, data: seq<Byte>, pageSize: nat, pid: Word, i: nat)
    requires 0 < pageSize <= INT_MAX && pageSize == SplitSize(pageSize)
    requires i < |data| <= pageSize && address + |data| < WORD
    requires var a := Split(address, pageSize, pid); a.offset < pageSize && Covered(w, a, 1, |data|, pageSize)
    requires forall op :: op in ops ==> Spares(op, pid)
    ensures var a := Split(address, pageSize, pid);
      ByteAt(FlatRun(StoreBytes(w, a, 1, data, |data|, pageSize), ops), Split(address + i, pageSize, pid), data[i])
  {
    NthIsSplit(address, i, pageSize, pid);
    PagesLeft(address, |data|, pageSize, pid);
    var a := Split(address, pageSize, pid);
    assert a.pid == pid;
    hide Covered, StoreBytes, Split, SplitSize, FlatRun, Nth, Carry, ByteAt, Spares;
    StringRoundTrip(w, a, data, |data|, pageSize, ops);
  }

  /** A written byte is what a read of it returns. */
  lemma ByteIsRead(c: C.Cache, w: C.Flat, a: VirtAddr, b: Byte)
    requires C.Valid(c) && C.Coherent(c, w, None) && ByteAt(w, a, b) && a.offset < c.pageSize
    ensures a.Key() in c.backing && C.Read(c, a.Key(), a.offset, 1).1 == [b]
  {
    hide C.Valid, C.Read;
    C.ReadCoherent(c, w, a.Key(), a.offset, 1);
  }

  /**
   End to end, for a page size that is a power of two: what sim_write stores from a user's address on is
   returned, byte by byte, by reads of the consecutive user addresses, after every run of operations of the
   memory system that leaves the process's own pages alone, whatever it evicts.
   */
  lemma UserStringReadsBack(c: C.Cache, w: C.Flat, ops: seq<Op>, address: Word, data: seq<Byte>, pageSize: nat,
      pid: Word, i: nat)
    requires 0 < pageSize <= INT_MAX && pageSize == SplitSize(pageSize)
    requires i < |data| <= pageSize && address + |data| < WORD
    requires var a := Split(address, pageSize, pid);
      && a.offset < pageSize && Covered(w, a, 1, |data|, pageSize)
      && C.Valid(c) && c.pageSize == pageSize && C.Coherent(c, StoreBytes(w, a, 1, data, |data|, pageSize), None)
    requires LegalRun(c, ops) && forall op :: op in ops ==> Spares(op, pid)
    ensures var b := Split(address + i, pageSize, pid);
      var d := Run(c, ops);
      && C.Valid(d) && b.offset + 1 <= d.pageSize && b.Key() in d.backing
      && C.Read(d, b.Key(), b.offset, 1).1 == [data[i]]
  {
    hide C.Valid, C.Coherent, C.Read, Covered, StoreBytes, Split, SplitSize, FlatRun, Run, LegalRun, Nth, ByteAt,
      Spares;
    var a, b := Split(address, pageSize, pid), Split(address + i, pageSize, pid);
    var w1 := StoreBytes(w, a, 1, data, |data|, pageSize);
    UserStringStored(w, ops, address, data, pageSize, pid, i);
    NthIsSplit(address + i, 0, pageSize, pid);
    RunRefines(c, w1, ops);
    RunKeepsPageSize(c, ops);
    ByteIsRead(Run(c, ops), FlatRun(w1, ops), b, data[i]);
  }

  lemma PagesLeft(address: Word, n: nat, pageSize: nat, pid: Word)
    requires 0 < pageSize <= INT_MAX && pageSize == SplitSize(pageSize) && address + n < WORD
    ensures var a := Split(address, pageSize, pid); a.page + Carry(a.offset + n, pageSize) < WORD
  {
    hide SplitSize, Carry, Rest;
    SplitFacts(address, pageSize);
    SplitFacts(address + n, pageSize);
    var q, r := PageOf(address, pageSize), OffsetOf(address, pageSize);
    hide PageOf, OffsetOf;
    CarryFacts(r + n, pageSize);
    PagesAdd(q, Carry(r + n, pageSize), pageSize);
    SplitUnique(address + n, pageSize, q + Carry(r + n, pageSize), Rest(r + n, pageSize));
  }

  /** The `i`-th byte from a user's address on. */
  function UserByte(address: Word, i: nat, pageSize: nat, pid: Word): VirtAddr
    requires pageSize > 0 && address + i < WORD
  {
    Split(address + i, pageSize, pid)
  }

  /** The pages under the bytes of a user's string are allocated. */
  ghost predicate UserCovered(w: C.Flat, address: Word, n: nat, pageSize: nat, pid: Word)
    requires pageSize > 0 && address + n < WORD
  {
    forall i :: 0 <= i < n ==> UserByte(address, i, pageSize, pid).Key() in w
  }

  lemma CoveredByUser(w: C.Flat, address: Word, n: nat, pageSize: nat, pid: Word)
    requires 0 < pageSize <= INT_MAX && pageSize == SplitSize(pageSize) && address + n < WORD
    requires UserCovered(w, address, n, pageSize, pid)
    ensures Covered(w, Split(address, pageSize, pid), 1, n, pageSize)
  {
    hide Nth, Split, SplitSize;
    forall i | 0 <= i < n ensures Nth(Split(address, pageSize, pid), 1, i, pageSize).Key() in w {
      NthIsSplit(address, i, pageSize, pid);
      assert UserByte(address, i, pageSize, pid).Key() in w;
    }
  }

  /**
   The loops themselves, from a user's address: sim_write and then sim_read with step 1 leave the first
   min(amount, page size) bytes of the string in the buffer, and flat memory has them at `address + i`.
   */
  method WriteReadBack(prm: Prm, address: Word, s: array<Byte>, amount: nat, pid: Word, ghost w: C.Flat)
      returns (buf: array<Byte>, ghost w': C.Flat)
    requires Sound(prm.mmu, w) && prm !in prm.mmu.Repr && s !in prm.mmu.Repr
    requires 0 < prm.mmu.pageSize <= INT_MAX && prm.mmu.pageSize == SplitSize(prm.mmu.pageSize)
    requires 0 < amount <= s.Length && address + Min(amount, prm.mmu.pageSize) < WORD
    requires UserCovered(w, address, Min(amount, prm.mmu.pageSize), prm.mmu.pageSize, pid)
    modifies prm, prm.mmu.Repr
    ensures Sound(prm.mmu, w') && w'.Keys == w.Keys
    ensures forall i :: 0 <= i < Min(amount, prm.mmu.pageSize) ==>
      ByteAt(w', UserByte(address, i, prm.mmu.pageSize, pid), s[i])
    ensures buf.Length >= Min(amount, prm.mmu.pageSize)
    ensures buf[..Min(amount, prm.mmu.pageSize)] == s[..Min(amount, prm.mmu.pageSize)]
  {
    hide Sound, Nth, StoreBytes, SplitSize, Split, ByteAt, Covered;
    var pageSize := prm.mmu.pageSize;
    var n := Min(amount, pageSize);
    CoveredByUser(w, address, n, pageSize, pid);
    var a := MakeVirtAddr(address, pageSize, pid);
    PagesLeft(address, n, pageSize, pid);
    StoredBack(w, a, s[..], n, pageSize);
    w' := StoreBytes(w, a, 1, s[..], n, pageSize);
    CoveredStays(w, w', a, n, pageSize);
    var err, last := SimWrite(prm, a, s, amount, w);
    ghost var data := s[..];
    err, buf, last := SimRead(prm, a, 1, n, w');
    forall i | 0 <= i < n ensures ByteAt(w', UserByte(address, i, pageSize, pid), s[i]) && buf[i] == s[i] {
      NthIsSplit(address, i, pageSize, pid);
      ByteIs(w', Nth(a, 1, i, pageSize), s[i]);
    }
  }

  lemma CoveredStays(w: C.Flat, w': C.Flat, addr: VirtAddr, n: nat, pageSize: nat)
    requires 0 < pageSize <= INT_MAX && Covered(w, addr, 1, n, pageSize) && w'.Keys == w.Keys
    ensures Covered(w', addr, 1, n, pageSize)
  {
    hide Nth;
  }

  lemma ByteIs(w: C.Flat, a: VirtAddr, b: Byte)
    requires ByteAt(w, a, b)
    ensures a.Key() in w && a.offset in w[a.Key()] && w[a.Key()][a.offset] == b
  {
  }
}
