/** General data types of the simulator (util/vmsim_types.h). */
module VmTypes {
  /** Result codes shared by every component. */
  datatype ErrCode = EcSuccess | EcFail | EcNotFound

  datatype Option<+T> = None | Some(value: T)

  function Min(a: nat, b: nat): nat {
    if a < b then a else b
  }

  /** A byte of memory, of the disk, or of a bitmap block. */
  type Byte = bv8

  /** The contents of one page, in memory or on the disk. */
  type Page = seq<Byte>

  const WORD: nat := 0x1_0000_0000

  /** A 32-bit `unsigned`. */
  type Word = x: int | 0 <= x < WORD

  /** What two virtual addresses are compared on: process and page, never the offset. */
  datatype PageKey = PageKey(pid: nat, page: nat)

  datatype VirtAddr = VirtAddr(pid: Word, page: Word, offset: Word) {
    function Key(): PageKey {
      PageKey(pid, page)
    }
  }
}
