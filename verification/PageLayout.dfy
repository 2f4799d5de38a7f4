/** Page and block geometry of the pool allocator, and the word that packs a
    page address together with a block type.

    Memory is counted in 8-byte words: word `w` is the byte address `8 * w`.
    A page is 4096 bytes, that is 512 words, and page `p` starts at word `512 * p`. */
module PageLayout {

  const PAGE_BYTES := 4096
  const WORD_BYTES := 8
  const PAGE_WORDS := 512
  const NSIZES := 9
  const LARGEST_SUBPAGE := 2048

  /** The number of pages below address 2^32. */
  const PAGE_LIMIT := 0x10_0000

  /** The table of block sizes, in bytes. */
  function SizeOf(k: nat): (s: nat)
    requires k < NSIZES
    ensures s == WORD_BYTES * BlockWords(k)
  {
    match k
    case 0 => 8
    case 1 => 16
    case 2 => 32
    case 3 => 64
    case 4 => 128
    case 5 => 256
    case 6 => 512
    case 7 => 1024
    case _ => 2048
  }

  /** The same table in words. */
  function BlockWords(k: nat): (s: nat)
    requires k < NSIZES
    ensures 1 <= s <= 256
  {
    match k
    case 0 => 1
    case 1 => 2
    case 2 => 4
    case 3 => 8
    case 4 => 16
    case 5 => 32
    case 6 => 64
    case 7 => 128
    case _ => 256
  }

  /** How many blocks of type `k` fill one page. */
  function BlocksPerPage(k: nat): (n: nat)
    requires k < NSIZES
    ensures 2 <= n <= PAGE_WORDS
  {
    PAGE_BYTES / SizeOf(k)
  }

  /** The page a word lies in. */
  function Page(w: int): int {
    w / PAGE_WORDS
  }

  /** `j * BlockWords(k)`, written out so that every factor is a literal. */
  function Scale(k: nat, j: int): int
    requires k < NSIZES
  {
    match k
    case 0 => j
    case 1 => 2 * j
    case 2 => 4 * j
    case 3 => 8 * j
    case 4 => 16 * j
    case 5 => 32 * j
    case 6 => 64 * j
    case 7 => 128 * j
    case _ => 256 * j
  }

  /** `d / BlockWords(k)`, likewise. */
  function Unscale(k: nat, d: int): int
    requires k < NSIZES
  {
    match k
    case 0 => d
    case 1 => d / 2
    case 2 => d / 4
    case 3 => d / 8
    case 4 => d / 16
    case 5 => d / 32
    case 6 => d / 64
    case 7 => d / 128
    case _ => d / 256
  }

  lemma ScaleSteps(k: nat, i: int, j: int)
    requires k < NSIZES
    ensures Scale(k, j + 1) == Scale(k, j) + BlockWords(k)
    ensures i < j ==> Scale(k, i) + BlockWords(k) <= Scale(k, j)
    ensures Scale(k, 0) == 0 && Scale(k, BlocksPerPage(k)) == PAGE_WORDS
    ensures Unscale(k, Scale(k, j)) == j
  {
  }

  /** The `j`-th block of type `k` on page `p`. */
  function NthBlock(p: int, k: nat, j: int): int
    requires k < NSIZES
  {
    PAGE_WORDS * p + Scale(k, j)
  }

  /** The position on page `p` of the block that word `a` lies in. */
  function BlockIndex(a: int, p: int, k: nat): int
    requires k < NSIZES
  {
    Unscale(k, a - PAGE_WORDS * p)
  }

  /** `a` is the start of a block of type `k` on page `p`. */
  predicate BlockOn(a: int, p: int, k: nat)
    requires k < NSIZES
  {
    && PAGE_WORDS * p <= a < PAGE_WORDS * p + PAGE_WORDS
    && NthBlock(p, k, BlockIndex(a, p, k)) == a
  }

  /** The test of the program: the byte offset of `a` is a multiple of the block size. */
  lemma BlockOnIsAlignment(a: int, p: int, k: nat)
    requires k < NSIZES && PAGE_WORDS * p <= a < PAGE_WORDS * p + PAGE_WORDS
    ensures BlockOn(a, p, k) <==> (WORD_BYTES * a - PAGE_BYTES * p) % SizeOf(k) == 0
  {
    assert WORD_BYTES * a - PAGE_BYTES * p == WORD_BYTES * (a - PAGE_WORDS * p);
    ScaleRemainder(k, a - PAGE_WORDS * p);
  }

  lemma ScaleRemainder(k: nat, d: int)
    requires k < NSIZES
    ensures Scale(k, Unscale(k, d)) == d <==> (WORD_BYTES * d) % SizeOf(k) == 0
  {
    assert Unscale(k, d) == d / BlockWords(k);
    var q, t := d / BlockWords(k), (WORD_BYTES * d) / SizeOf(k);
    MultipleHasNoRemainder(k, q);
    ScaleInBytes(k, q);
    ScaleInBytes(k, t);
  }

  lemma MultipleHasNoRemainder(k: nat, j: int)
    requires k < NSIZES
    ensures (SizeOf(k) * j) % SizeOf(k) == 0
  {
  }

  lemma ScaleInBytes(k: nat, j: int)
    requires k < NSIZES
    ensures SizeOf(k) * j == WORD_BYTES * Scale(k, j) && Unscale(k, Scale(k, j)) == j
  {
  }

  /** Blocks of a page and indices below `BlocksPerPage` correspond one to one. */
  lemma NthBlockOn(p: int, k: nat, j: int)
    requires k < NSIZES && 0 <= j < BlocksPerPage(k)
    ensures BlockOn(NthBlock(p, k, j), p, k) && BlockIndex(NthBlock(p, k, j), p, k) == j
  {
    ScaleSteps(k, j, BlocksPerPage(k));
    if j > 0 { ScaleSteps(k, 0, j); }
  }

  lemma BlockIndexInRange(a: int, p: int, k: nat)
    requires k < NSIZES && BlockOn(a, p, k)
    ensures 0 <= BlockIndex(a, p, k) < BlocksPerPage(k)
  {
  }

  /** A block never leaves its page. */
  lemma BlockStaysOnPage(a: int, p: int, k: nat)
    requires k < NSIZES && BlockOn(a, p, k)
    ensures PAGE_WORDS * p <= a && a + BlockWords(k) <= PAGE_WORDS * p + PAGE_WORDS
  {
    BlockIndexInRange(a, p, k);
    ScaleSteps(k, BlockIndex(a, p, k), BlocksPerPage(k));
  }

  /** Two different blocks of one page do not overlap. */
  lemma BlocksApart(a: int, b: int, p: int, k: nat)
    requires k < NSIZES && BlockOn(a, p, k) && BlockOn(b, p, k) && a < b
    ensures a + BlockWords(k) <= b
  {
    var i, j := BlockIndex(a, p, k), BlockIndex(b, p, k);
    if j < i { ScaleSteps(k, j, i); }
    ScaleSteps(k, i, j);
  }

  // ---------------------------------------------------------------- packing

  /** `word & PAGE_FRAME`: the mask 0xfffff000 is 32 bits wide, so it also clears
      the upper half of a 64-bit word. */
  function PageAddr(pab: int): int {
    pab % 0x1_0000_0000 - pab % PAGE_BYTES
  }

  /** `word & ~PAGE_FRAME`. */
  function BlockType(pab: int): int {
    pab % PAGE_BYTES
  }

  /** `MKPAB`: the two masked halves share no bit, so or-ing them adds them. */
  function MkPab(pa: int, blk: int): int {
    PageAddr(pa) + BlockType(blk)
  }

  /** Exactly for page-aligned addresses below 2^32 and block types below 4096
      does unpacking give back what was packed. */
  lemma PackRoundTrip(pa: int, blk: int)
    ensures (PageAddr(MkPab(pa, blk)) == pa && BlockType(MkPab(pa, blk)) == blk)
            <==> (0 <= pa < 0x1_0000_0000 && pa % PAGE_BYTES == 0 && 0 <= blk < PAGE_BYTES)
  {
  }

  const FRAME: bv64 := 0xfffff000

  function MkPabBits(pa: bv64, blk: bv64): bv64 {
    (pa & FRAME) | (blk & (FRAME ^ 0xffff_ffff))
  }

  /** On machine words the masks are the remainders used above. */
  lemma MasksAreRemainders(x: bv64, y: bv64)
    ensures x & FRAME == x % 0x1_0000_0000 - x % 4096
    ensures x & (FRAME ^ 0xffff_ffff) == x % 4096
    ensures MkPabBits(x, y) == (x & FRAME) + (y & (FRAME ^ 0xffff_ffff))
  {
  }

  /** The page number inside a packed word; 0 stands for "no page yet". */
  function PageOf(pab: int): int {
    PageAddr(pab) / PAGE_BYTES
  }

  /** The packed page address is the byte address of the page number. */
  lemma PageAddrOf(pab: int)
    ensures PageAddr(pab) == PAGE_BYTES * PageOf(pab) && 0 <= PageOf(pab) < PAGE_LIMIT
  {
  }

  /** Packing the byte address of page `p` and unpacking gives back page and type. */
  lemma PageOfPacked(p: int, k: int)
    requires 0 <= p < PAGE_LIMIT && 0 <= k < PAGE_BYTES
    ensures PageOf(MkPab(PAGE_BYTES * p, k)) == p
    ensures PageAddr(MkPab(PAGE_BYTES * p, k)) == PAGE_BYTES * p
    ensures BlockType(MkPab(PAGE_BYTES * p, k)) == k
  {
    PackRoundTrip(PAGE_BYTES * p, k);
  }
}
