/** The page count of a big request, computed as the program does in 32-bit signed integers. */
module BigSizes {
  import opened Memlib

  const PAGE := 4096
  const HEADER := 8
  const INT_MAX := 0x7fff_ffff

  /** Truncation to a 32-bit two's complement integer. */
  function ToInt32(x: int): (r: int)
    ensures -0x8000_0000 <= r <= INT_MAX
    ensures -0x8000_0000 <= x <= INT_MAX ==> r == x
  {
    var low := x % 0x1_0000_0000;
    if low <= INT_MAX then low else low - 0x1_0000_0000
  }

  /** Division that truncates toward zero. */
  function CDiv(a: int, b: int): int
    requires b > 0
  {
    if a >= 0 then a / b else -(-a / b)
  }

  /** Pages asked for by a request of `sz` bytes: the parameter is an `int`, a header is added,
      and the sum is rounded up. */
  function BigPages(sz: nat): int {
    CDiv(ToInt32(ToInt32(ToInt32(sz) + HEADER) + PAGE - 1), PAGE)
  }

  /** The block that the page count provides holds the request exactly up to this size. */
  const LARGEST_REQUEST := INT_MAX - HEADER - (PAGE - 1)

  lemma BigPagesHold(sz: nat)
    ensures BigPages(sz) * PAGE - HEADER >= sz <==> sz <= LARGEST_REQUEST
    ensures sz <= LARGEST_REQUEST ==> 1 <= BigPages(sz) && (BigPages(sz) - 1) * PAGE < sz + HEADER
  {
  }

  /** A request of 4 GiB gets one page. */
  lemma BigPagesTruncated()
    ensures BigPages(0x1_0000_0000) == 1
    ensures BigPages(0x1_0000_0000) * PAGE - HEADER < 0x1_0000_0000
  {
  }

  /** The page count is positive exactly for these sizes, wherever they lie modulo 2^32. */
  lemma BigPagesPositive(sz: nat)
    ensures 1 <= BigPages(sz) <==> sz % 0x1_0000_0000 <= LARGEST_REQUEST || sz % 0x1_0000_0000 >= 0x1_0000_0000 - 7
  {
  }

  /** Where, in bytes from its start, the program puts the header of the tail that it cuts off a
      free chunk of `c` pages: the product is an `int`, too. */
  function TailOffset(c: int, n: int): int {
    ToInt32((c - n) * PAGE)
  }

  /** What becomes of a request: it is served, if only with null; the program stops at the
      assertion of `mem_sbrk`; or it writes a chunk header at byte `at`, out of place. */
  datatype Fate = Served | Stops | Misplaces(at: int)

  /** For a count that is not positive this lies outside the chunk, whatever chunk of the
      segment it is. */
  lemma TailEscapes(sz: nat, c: int)
    requires BigPages(sz) < 1 && 1 <= c <= DSEG_MAX / PAGE
    ensures !(0 <= TailOffset(c, BigPages(sz)) < c * PAGE)
  {
    assert -0x8_0000 <= BigPages(sz) <= 0;
  }

  /** A request of 2 GiB has the header written 2 GiB before a chunk of two pages; one of 4 GiB
      less a page, right after the chunk. */
  lemma TailEscapesExamples()
    ensures BigPages(0x8000_0000) == -524286 && TailOffset(2, BigPages(0x8000_0000)) == -0x8000_0000
    ensures BigPages(0xffff_f000) == 0 && TailOffset(2, BigPages(0xffff_f000)) == 2 * PAGE
  {
  }
}
