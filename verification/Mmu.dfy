/** Paging constants and entries (inc/mmu.h, inc/memlayout.h).
    A 32-bit page-table word is split into its 20-bit frame number and its 12 flag bits. */
module Mmu {

  /** The twelve low bits of a page-table word, from bit 0 (PTE_P) to bit 11 (PTE_COW). */
  datatype Flag = P | W | U | PWT | PCD | A | D | PS | G | Avail9 | Share | Cow

  type Bits = set<Flag>

  datatype Word = Word(frame: nat, bits: Bits)

  type Frame = seq<Word>

  const ZERO := Word(0, {})

  const NPTENTRIES := 1024
  const NPDENTRIES := 1024
  const NENV := 1024

  /** PDX(UTOP), PDX(UVPT), PDX of the last entry: 0xeec00000, 0xef400000. */
  const PDX_UTOP := 955
  const PDX_UVPT := 957

  /** PGNUM(UTOP): the number of virtual pages a user may manipulate. */
  const UTOP_PAGES := 977920

  /** Largest value of the 16-bit pp_ref. */
  const REF_MAX := 65535

  /** PTE_SYSCALL: the bits a system call may set. */
  const SYSCALL_BITS: Bits := {P, W, U, Avail9, Share, Cow}

  /** The test every page system call makes on its permission argument. */
  predicate PermOk(perm: Bits) {
    {U, P} <= perm && perm <= SYSCALL_BITS
  }

  function ZeroFrame(): (z: Frame)
    ensures |z| == NPTENTRIES
    ensures forall i | 0 <= i < NPTENTRIES :: z[i] == ZERO
  {
    seq(NPTENTRIES, i => ZERO)
  }
}
