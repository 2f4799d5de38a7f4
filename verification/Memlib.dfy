/** The heap segment that the allocators obtain memory from. Addresses are byte addresses. */
module Memlib {

  const DSEG_MAX := 256 * 1024 * 1024
  const PAGE_SIZE := 4096

  /** `PAGE_ALIGN_UP`. */
  function AlignUp(p: int): (a: int)
    ensures p <= a < p + PAGE_SIZE && a % PAGE_SIZE == 0
    ensures forall b :: p <= b && b % PAGE_SIZE == 0 ==> a <= b
  {
    (p + PAGE_SIZE - 1) / PAGE_SIZE * PAGE_SIZE
  }

  class DataSegment {
    var dsegLo: int
    var dsegHi: int
    var dsegSize: int
    ghost const slab: int       // what the C library returned
    ghost const slabSize: int

    /** What is in use lies inside the slab. */
    ghost predicate Inside()
      reads this
    {
      && 0 < slab <= dsegLo && 0 <= dsegSize && dsegLo + dsegSize < slab + slabSize
      && dsegLo - 1 <= dsegHi <= dsegLo + dsegSize
    }

    /** It is a whole number of pages, and within the segment's limit. */
    ghost predicate Valid()
      reads this
    {
      && Inside()
      && dsegLo % PAGE_SIZE == 0 && dsegSize % PAGE_SIZE == 0 && (dsegHi + 1) % PAGE_SIZE == 0
      && Used() <= dsegSize
    }

    ghost function Used(): int
      reads this
    {
      dsegHi + 1 - dsegLo
    }

    /** `mem_init` with a slab of `DSEG_MAX` plus two pages at address `p`. */
    constructor (p: int)
      requires 0 < p
      ensures Valid() && slab == p && slabSize == DSEG_MAX + 2 * PAGE_SIZE
      ensures dsegLo == AlignUp(p) && Used() == 0 && dsegSize == DSEG_MAX
    {
      slab, slabSize := p, DSEG_MAX + 2 * PAGE_SIZE;
      dsegLo := AlignUp(p);
      dsegHi := AlignUp(p) - 1;
      dsegSize := DSEG_MAX;
    }

    /** The limit test admits one byte too many, which the slab has; page-multiple requests are
        served exactly while they fit, with consecutive aligned ranges. */
    method MemSbrk(increment: int) returns (p: int)
      requires Inside() && 0 < increment
      modifies this`dsegHi
      ensures Inside()
      ensures old(Used()) + increment <= dsegSize + 1 ==>
                p == old(dsegHi) + 1 && dsegHi == old(dsegHi) + increment
                && slab <= p && p + increment <= slab + slabSize
      ensures old(Used()) + increment > dsegSize + 1 ==> p == 0 && dsegHi == old(dsegHi)
      ensures old(Valid()) && increment % PAGE_SIZE == 0 ==>
                && Valid() && (p != 0 <==> old(Used()) + increment <= dsegSize)
                && (p != 0 ==> p % PAGE_SIZE == 0)
    {
      var newHi, oldHi := dsegHi + increment, dsegHi;
      if newHi > dsegLo + dsegSize {
        return 0;
      }
      dsegHi := newHi;
      return oldHi + 1;
    }
  }
}
