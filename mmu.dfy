/** The x86 32-bit paging constants and the JOS user memory layout the core relies on.
    PTE bits follow section 4.3 of Intel SDM Vol. 3A; the page-fault error code's
    W/R bit follows section 4.7. */
module Mmu {

  /** A 32-bit unsigned machine word used as an address (uintptr_t). */
  type uint32 = x: int | 0 <= x < 0x1_0000_0000

  /** A virtual page number of the 32-bit address space. */
  type Vpn = n: int | 0 <= n < 0x10_0000

  const PGSIZE: nat := 4096
  const NPTENTRIES: nat := 1024
  /** Bytes mapped by one page table: PGSIZE * NPTENTRIES. */
  const PTSIZE: nat := 0x40_0000

  // Page-table entry bits.  Entries and permissions are 32-bit words held as
  // integers; a permission built from several bits is their sum, which is their
  // bitwise OR because the bits are distinct.
  const PTE_P: uint32 := 0x001
  const PTE_W: uint32 := 0x002
  const PTE_U: uint32 := 0x004
  const PTE_PS: uint32 := 0x080
  /** Copy-on-write: one of the bits the hardware leaves to software. */
  const PTE_COW: uint32 := 0x800

  /** Page-fault error code: the faulting access was a write. */
  const FEC_WR: uint32 := 0x002

  // User memory layout, written out as numbers; Layout below states how each
  // is derived from the others.
  const UTOP: nat := 0xeec0_0000
  const UXSTACKTOP: nat := 0xeec0_0000
  const USTACKTOP: nat := 0xeebf_e000
  const UTEXT: nat := 0x80_0000
  const UTEMP: nat := 0x40_0000
  const PFTEMP: nat := 0x7f_f000

  /** How the layout constants are derived in memlayout.h. */
  lemma Layout()
    ensures PTSIZE == PGSIZE * NPTENTRIES
    ensures UXSTACKTOP == UTOP && USTACKTOP == UTOP - 2 * PGSIZE
    ensures UTEXT == 2 * PTSIZE && UTEMP == PTSIZE && PFTEMP == UTEMP + PTSIZE - PGSIZE
    ensures UTOP % PTSIZE == 0
  {
  }

  // The bit tests `word & PTE_x != 0`, written on the bit's position.

  predicate Present(word: uint32) { word % 2 == 1 }
  predicate Writable(word: uint32) { word / 2 % 2 == 1 }
  predicate User(word: uint32) { word / 4 % 2 == 1 }
  predicate LargePage(word: uint32) { word / 0x80 % 2 == 1 }
  predicate Cow(word: uint32) { word / 0x800 % 2 == 1 }

  /** `err & FEC_WR != 0` for a page-fault error code. */
  predicate WriteFault(err: uint32) { err / 2 % 2 == 1 }

  /** PTE_ADDR: the physical address held in an entry (its low 12 bits cleared). */
  function PteAddr(pte: uint32): (a: uint32)
    ensures a % PGSIZE == 0 && a <= pte < a + PGSIZE
  {
    pte - pte % PGSIZE
  }

  /** PGNUM: the page number of an address. */
  function PageNum(va: uint32): (n: Vpn)
    ensures n * PGSIZE <= va < n * PGSIZE + PGSIZE
  {
    va / PGSIZE
  }

  /** PDX: the page-directory index of an address, i.e. its top ten bits. */
  function DirIndex(va: uint32): (d: nat)
    ensures d < NPTENTRIES && d * PTSIZE <= va < d * PTSIZE + PTSIZE
  {
    PageNum(va) / NPTENTRIES
  }

  /** The address 4096 * pn is the start of page pn. */
  lemma PageStart(va: uint32, pn: nat)
    requires va == 4096 * pn
    ensures PageNum(va) == pn
  {
  }

  /** The page after an aligned address below an aligned limit starts at or
      below the limit. */
  lemma NextPageBelow(va: uint32, pn: nat, limit: uint32)
    requires va == 4096 * pn && va < limit && limit % 4096 == 0
    ensures va + PGSIZE <= limit
  {
  }

  /** ROUNDDOWN(va, PGSIZE). */
  function RoundDown(va: uint32): (r: uint32)
    ensures r % PGSIZE == 0 && r <= va < r + PGSIZE
    ensures PageNum(r) == PageNum(va)
  {
    va - va % PGSIZE
  }

  /** ROUNDUP(va, PGSIZE) computed in 32-bit arithmetic: `va + PGSIZE - 1` wraps
      before it is rounded down, so an address in the last page rounds to 0. */
  function RoundUp32(va: uint32): (r: uint32)
    ensures r % PGSIZE == 0
    ensures va <= 0xFFFF_F000 ==> va <= r < va + PGSIZE
    ensures va > 0xFFFF_F000 ==> r == 0
  {
    var sum := (va + PGSIZE - 1) % 0x1_0000_0000;
    sum - sum % PGSIZE
  }
}
