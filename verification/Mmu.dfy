/** Paging constants and the shape of page-table and page-directory entries
    (inc/mmu.h, inc/memlayout.h). */
module Mmu {

  const NPDENTRIES := 1024
  const NPTENTRIES := 1024
  const PGSIZE := 4096

  /** The twelve low bits of an entry. AVL9, AVL10 and COW make up PTE_AVAIL; COW is 0x800. */
  datatype Bit = P | W | U | PWT | PCD | A | D | PS | G | AVL9 | AVL10 | COW

  type Flags = set<Bit>

  /** A 32-bit entry: the frame number held in its upper 20 bits and its flag bits. */
  datatype Entry = Entry(frame: nat, flags: Flags) {
    predicate Present() {
      P in flags
    }
  }

  const ZERO := Entry(0, {})
}
