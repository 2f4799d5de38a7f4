/** The state of the pool allocator as one value: the memory words, the list roots, and
    a ledger that says what every page, pageref and pointer is in use for. `Inv` is what
    holds before and after every call. */
module HeapState {
  import opened Sequences
  import opened PageLayout
  import opened Chains

  /** What a pageref is in use for; `Held` is one that a running call has taken off its list. */
  datatype Role = Fresh | Recycled | Held | InUse(k: nat)

  /** The single owner of a page: pageref storage, the page of one pageref, or a big chunk. */
  datatype Owner = Refs | Sub(ref: int) | Chunk(hdr: int)

  /** What a live pointer was allocated as. */
  datatype Live = Small(ref: int) | Big

  datatype Heap = Heap(
    m: seq<int>,
    lo: int,
    hi: int,
    freshHead: int,
    recycledHead: int,
    sizebases: seq<int>,
    bigHead: int,
    freshRefs: seq<int>,
    recycledRefs: seq<int>,
    inUse: seq<seq<int>>,
    bigFree: seq<int>,
    role: map<int, Role>,
    flist: map<int, seq<int>>,
    owner: map<int, Owner>,
    live: map<int, Live>)

  // Words of a pageref.
  const NEXT := 0
  const FLIST := 1
  const PAB := 2
  const NFREE := 3
  const REF_WORDS := 4
  const REFS_PER_PAGE := 128

  ghost predicate Shape(h: Heap) {
    && |h.sizebases| == NSIZES && |h.inUse| == NSIZES
    && 0 < h.lo <= h.hi <= PAGE_LIMIT
    && PAGE_WORDS * h.hi <= |h.m|
    && (forall p :: p in h.owner <==> h.lo <= p < h.hi)
    && (forall r :: r in h.role <==> r % REF_WORDS == 0 && Page(r) in h.owner && h.owner[Page(r)] == Refs)
  }

  /** `s` lists each pageref with role `tag` exactly once. */
  ghost predicate Lists(role: map<int, Role>, s: seq<int>, tag: Role) {
    Distinct(s) && forall r :: r in s <==> r in role && role[r] == tag
  }

  ghost predicate SizeList(h: Heap, k: nat)
    requires Shape(h) && k < NSIZES
  {
    Chain(h.m, h.sizebases[k], h.inUse[k], NEXT) && Lists(h.role, h.inUse[k], InUse(k))
  }

  ghost predicate RefLists(h: Heap)
    requires Shape(h)
  {
    && Chain(h.m, h.freshHead, h.freshRefs, NEXT) && Lists(h.role, h.freshRefs, Fresh)
    && Chain(h.m, h.recycledHead, h.recycledRefs, NEXT) && Lists(h.role, h.recycledRefs, Recycled)
    && (forall k: nat :: k < NSIZES ==> SizeList(h, k))
  }

  /** An aligned group of four words does not straddle a page boundary. */
  lemma SlotArithmetic(r: int)
    requires r % REF_WORDS == 0
    ensures PAGE_WORDS * Page(r) <= r && r + NFREE < PAGE_WORDS * Page(r) + PAGE_WORDS
    ensures Page(r + NEXT) == Page(r + FLIST) == Page(r + PAB) == Page(r + NFREE) == Page(r)
  {
  }

  /** The four words of a pageref slot lie inside the heap. */
  lemma RefWordsInHeap(h: Heap, r: int)
    requires Shape(h) && r in h.role
    ensures 0 < r && r + NFREE < PAGE_WORDS * h.hi <= |h.m|
    ensures h.lo <= Page(r) < h.hi
  {
    SlotArithmetic(r);
    assert Page(r) in h.owner;
  }

  function Word(h: Heap, w: int): int {
    if 0 <= w < |h.m| then h.m[w] else 0
  }

  function PageOfRef(h: Heap, r: int): int {
    PageOf(Word(h, r + PAB))
  }

  ghost predicate HasPage(h: Heap, r: int) {
    && PageOfRef(h, r) in h.owner
    && h.owner[PageOfRef(h, r)] == Sub(r)
  }

  ghost predicate PageRefOk(h: Heap, r: int) {
    r in h.role &&
    match h.role[r]
    case Fresh => Word(h, r + PAB) == 0
    case InUse(k) => k < NSIZES && HasPage(h, r) && BlockType(Word(h, r + PAB)) == k
    case _ => PageOfRef(h, r) == 0 || HasPage(h, r)
  }

  ghost predicate PageRefs(h: Heap) {
    && (forall r {:trigger PageRefOk(h, r)} :: r in h.role ==> PageRefOk(h, r))
    && (forall p {:trigger h.owner[p]} :: p in h.owner && h.owner[p].Sub? ==>
          && h.owner[p].ref in h.role
          && h.role[h.owner[p].ref] != Fresh
          && PageOfRef(h, h.owner[p].ref) == p)
  }

  /** The free list of an in-use page threads exactly the blocks of the page that are not
      live, each once, and `nfree` counts them. */
  ghost predicate FreeListOk(h: Heap, r: int) {
    && r in h.role && h.role[r].InUse? && h.role[r].k < NSIZES
    && r in h.flist
    && Chain(h.m, Word(h, r + FLIST), h.flist[r], 0)
    && Distinct(h.flist[r])
    && Word(h, r + NFREE) == |h.flist[r]|
    && forall a :: a in h.flist[r] <==> BlockOn(a, PageOfRef(h, r), h.role[r].k) && a !in h.live
  }

  ghost predicate FreeLists(h: Heap) {
    forall r {:trigger FreeListOk(h, r)} :: r in h.role && h.role[r].InUse? ==> FreeListOk(h, r)
  }

  /** `c` heads a chunk: its header word counts its pages, and it owns each of them. */
  ghost predicate IsChunk(h: Heap, c: int) {
    && c % PAGE_WORDS == 0
    && 1 <= Word(h, c)
    && h.lo <= Page(c) && Page(c) + Word(h, c) <= h.hi
    && forall p {:trigger h.owner[p]} {:trigger p in h.owner} :: Page(c) <= p < Page(c) + Word(h, c) ==> p in h.owner && h.owner[p] == Chunk(c)
  }

  /** Every chunk is free or live, never both, and every chunk page belongs to one. */
  ghost predicate Chunks(h: Heap) {
    && Chain(h.m, h.bigHead, h.bigFree, 1) && Distinct(h.bigFree)
    && (forall c :: c in h.bigFree ==> IsChunk(h, c) && c + 1 !in h.live)
    && (forall p {:trigger h.owner[p]} :: p in h.owner && h.owner[p].Chunk? ==> ChunkPageOk(h, p, h.owner[p].hdr))
  }

  ghost predicate ChunkPageOk(h: Heap, p: int, c: int) {
    && IsChunk(h, c)
    && Page(c) <= p < Page(c) + Word(h, c)
    && (c in h.bigFree || c + 1 in h.live)
  }

  ghost predicate LiveOk(h: Heap, x: int) {
    x in h.live &&
    match h.live[x]
    case Small(r) => r in h.role && h.role[r].InUse? && h.role[r].k < NSIZES && BlockOn(x, PageOfRef(h, r), h.role[r].k)
    case Big => IsChunk(h, x - 1)
  }

  ghost predicate Lives(h: Heap) {
    forall x {:trigger LiveOk(h, x)} :: x in h.live ==> LiveOk(h, x)
  }

  ghost predicate Inv(h: Heap) {
    Shape(h) && RefLists(h) && PageRefs(h) && FreeLists(h) && Chunks(h) && Lives(h)
  }

  ghost predicate Paged(h: Heap, r: int) {
    PageOfRef(h, r) != 0
  }

  /** Recycled pagerefs that have a page come before those that have none. */
  ghost predicate PagedFirst(h: Heap) {
    forall i, j :: 0 <= i < j < |h.recycledRefs| && Paged(h, h.recycledRefs[j]) ==> Paged(h, h.recycledRefs[i])
  }

  /** Between calls no pageref is held, and no page of a size list is wholly free. */
  ghost predicate Settled(h: Heap) {
    && Inv(h) && PagedFirst(h)
    && (forall r :: r in h.role ==> h.role[r] != Held)
    && (forall r :: r in h.role && h.role[r].InUse? ==> PartlyUsed(h, r))
  }

  ghost predicate PartlyUsed(h: Heap, r: int) {
    r in h.role && h.role[r].InUse? && h.role[r].k < NSIZES && r in h.flist && |h.flist[r]| < BlocksPerPage(h.role[r].k)
  }
}
