/** What the invariant means to a caller: live blocks are private. */
module HeapSafety {
  import opened PageLayout
  import opened HeapState

  /** How many words a live pointer may use. */
  function Extent(h: Heap, x: int): int
    requires x in h.live
  {
    match h.live[x]
    case Small(r) => if r in h.role && h.role[r].InUse? && h.role[r].k < NSIZES then BlockWords(h.role[r].k) else 0
    case Big => PAGE_WORDS * Word(h, x - 1) - 1
  }

  predicate Within(h: Heap, x: int, w: int)
    requires x in h.live
  {
    x <= w < x + Extent(h, x)
  }

  function OwnerOf(h: Heap, x: int): Owner
    requires x in h.live
  {
    match h.live[x]
    case Small(r) => Sub(r)
    case Big => Chunk(x - 1)
  }

  lemma PageSpan(c: int, n: int, w: int)
    requires c % PAGE_WORDS == 0 && c <= w < c + PAGE_WORDS * n
    ensures Page(c) <= Page(w) < Page(c) + n
  {
  }

  lemma PageBounds(p: int, w: int)
    ensures Page(w) == p <==> PAGE_WORDS * p <= w < PAGE_WORDS * p + PAGE_WORDS
  {
  }

  /** Every word of a live block lies on a page owned by that block's page or chunk. */
  lemma LiveWordOwner(h: Heap, x: int, w: int)
    requires Inv(h) && x in h.live && Within(h, x, w)
    ensures Page(w) in h.owner && h.owner[Page(w)] == OwnerOf(h, x)
    ensures PAGE_WORDS * h.lo <= w < PAGE_WORDS * h.hi
  {
    assert LiveOk(h, x);
    match h.live[x]
    case Small(r) =>
      assert PageRefOk(h, r);
      BlockStaysOnPage(x, PageOfRef(h, r), h.role[r].k);
      PageBounds(PageOfRef(h, r), w);
    case Big =>
      PageSpan(x - 1, Word(h, x - 1), w);
  }

  /** Two live blocks share no word. */
  lemma LiveBlocksDisjoint(h: Heap, x: int, y: int, w: int)
    requires Inv(h) && x in h.live && y in h.live && x != y
    ensures !(Within(h, x, w) && Within(h, y, w))
  {
    if Within(h, x, w) && Within(h, y, w) {
      LiveWordOwner(h, x, w);
      LiveWordOwner(h, y, w);
      assert LiveOk(h, x) && LiveOk(h, y);
      if h.live[x].Small? {
        var r := h.live[x].ref;
        BlocksApart(if x < y then x else y, if x < y then y else x, PageOfRef(h, r), h.role[r].k);
      }
    }
  }

  /** Two overlapping blocks of one page are the same block. */
  lemma OverlapIsSame(a: int, b: int, p: int, k: nat, w: int)
    requires k < NSIZES && BlockOn(a, p, k) && BlockOn(b, p, k)
    requires a <= w < a + BlockWords(k) && b <= w < b + BlockWords(k)
    ensures a == b
  {
    if a < b { BlocksApart(a, b, p, k); }
    if b < a { BlocksApart(b, a, p, k); }
  }

  /** The words of a free block lie on the page its pageref owns. */
  lemma FreeBlockOwner(h: Heap, r: int, a: int, w: int)
    requires PageRefOk(h, r) && FreeListOk(h, r) && a in h.flist[r] && a <= w < a + BlockWords(h.role[r].k)
    ensures Page(w) in h.owner && h.owner[Page(w)] == Sub(r)
  {
    BlockStaysOnPage(a, PageOfRef(h, r), h.role[r].k);
    PageBounds(PageOfRef(h, r), w);
  }

  lemma SameRefApart(h: Heap, x: int, w: int, r: int, a: int)
    requires LiveOk(h, x) && h.live[x] == Small(r) && FreeListOk(h, r) && a in h.flist[r]
    ensures !(Within(h, x, w) && a <= w < a + BlockWords(h.role[r].k))
  {
    hide BlockOn, PageOf;
    if Within(h, x, w) && a <= w < a + BlockWords(h.role[r].k) {
      OverlapIsSame(a, x, PageOfRef(h, r), h.role[r].k, w);
    }
  }

  lemma FreeBlockApart(h: Heap, x: int, w: int, r: int, a: int)
    requires Inv(h) && x in h.live && Within(h, x, w)
    requires r in h.role && h.role[r].InUse? && r in h.flist && a in h.flist[r]
    ensures h.role[r].k < NSIZES && !(a <= w < a + BlockWords(h.role[r].k))
  {
    hide BlockOn, PageOf, BlockWords;
    assert FreeListOk(h, r) && PageRefOk(h, r) && LiveOk(h, x);
    if a <= w < a + BlockWords(h.role[r].k) {
      LiveWordOwner(h, x, w);
      FreeBlockOwner(h, r, a, w);
      SameRefApart(h, x, w, r, a);
    }
  }

  /** A live block never covers a word of a pageref slot, of a free block, a chunk header,
      or any word of a free chunk. */
  lemma LiveBlocksAvoidBookkeeping(h: Heap, x: int, w: int)
    requires Inv(h) && x in h.live && Within(h, x, w)
    ensures forall r :: r in h.role ==> !(r <= w < r + REF_WORDS)
    ensures forall r, a :: r in h.role && h.role[r].InUse? && r in h.flist && a in h.flist[r] ==>
              h.role[r].k < NSIZES && !(a <= w < a + BlockWords(h.role[r].k))
    ensures forall p :: p in h.owner && h.owner[p].Chunk? ==> w != h.owner[p].hdr
    ensures forall c :: c in h.bigFree ==> !(c <= w < c + PAGE_WORDS * Word(h, c))
  {
    hide BlockOn, PageOf;
    forall r | r in h.role ensures !(r <= w < r + REF_WORDS) {
      RefSlotApart(h, x, w, r);
    }
    forall r, a | r in h.role && h.role[r].InUse? && r in h.flist && a in h.flist[r]
      ensures h.role[r].k < NSIZES && !(a <= w < a + BlockWords(h.role[r].k))
    {
      FreeBlockApart(h, x, w, r, a);
    }
    forall p | p in h.owner && h.owner[p].Chunk? ensures w != h.owner[p].hdr {
      ChunkHeaderApart(h, x, w, p);
    }
    forall c | c in h.bigFree ensures !(c <= w < c + PAGE_WORDS * Word(h, c)) {
      FreeChunkApart(h, x, w, c);
    }
  }

  lemma RefSlotApart(h: Heap, x: int, w: int, r: int)
    requires Inv(h) && x in h.live && Within(h, x, w) && r in h.role
    ensures !(r <= w < r + REF_WORDS)
  {
    hide BlockOn, PageOf;
    LiveWordOwner(h, x, w);
    SlotArithmetic(r);
    PageBounds(Page(r), w);
  }

  lemma ChunkHeaderApart(h: Heap, x: int, w: int, p: int)
    requires Inv(h) && x in h.live && Within(h, x, w) && p in h.owner && h.owner[p].Chunk?
    ensures w != h.owner[p].hdr
  {
    hide BlockOn, PageOf;
    LiveWordOwner(h, x, w);
    assert ChunkPageOk(h, p, h.owner[p].hdr) && LiveOk(h, x);
    assert Page(h.owner[p].hdr) in h.owner;
  }

  lemma FreeChunkApart(h: Heap, x: int, w: int, c: int)
    requires Inv(h) && x in h.live && Within(h, x, w) && c in h.bigFree
    ensures !(c <= w < c + PAGE_WORDS * Word(h, c))
  {
    hide BlockOn, PageOf;
    assert IsChunk(h, c);
    if c <= w < c + PAGE_WORDS * Word(h, c) {
      LiveWordOwner(h, x, w);
      PageSpan(c, Word(h, c), w);
    }
  }

  // ------------------------------------------------------------ one owner per page

  ghost predicate StoresRefs(h: Heap, p: int) {
    exists r :: r in h.role && Page(r) == p
  }

  ghost predicate ManagedBy(h: Heap, p: int, r: int) {
    r in h.role && PageOfRef(h, r) == p
  }

  /** `p` is a page of the chunk at `c`, which is free or live. */
  ghost predicate InChunk(h: Heap, p: int, c: int) {
    && (c in h.bigFree || (c + 1 in h.live && h.live[c + 1] == Big))
    && Page(c) <= p < Page(c) + Word(h, c)
  }

  /** Every page of the heap is in exactly one use: it stores pagerefs, or exactly one in-use
      or recycled pageref has it, or it lies in exactly one chunk, which is free or live. */
  lemma PageHasOneOwner(h: Heap, p: int)
    requires Inv(h) && h.lo <= p < h.hi
    ensures StoresRefs(h, p) || (exists r :: ManagedBy(h, p, r)) || (exists c :: InChunk(h, p, c))
    ensures forall r :: ManagedBy(h, p, r) ==> h.role[r] != Fresh && !StoresRefs(h, p) && forall c :: !InChunk(h, p, c)
    ensures forall c :: InChunk(h, p, c) ==> !StoresRefs(h, p) && !(c in h.bigFree && c + 1 in h.live)
    ensures forall r, q :: ManagedBy(h, p, r) && ManagedBy(h, p, q) ==> r == q
    ensures forall c, d :: InChunk(h, p, c) && InChunk(h, p, d) ==> c == d
  {
    hide BlockOn, PageOf, BlockType, RefLists, FreeLists, ManagedBy, InChunk;
    assert p in h.owner;
    forall r | ManagedBy(h, p, r) ensures h.owner[p] == Sub(r) && h.role[r] != Fresh {
      ManagedOwner(h, p, r);
    }
    forall c | InChunk(h, p, c) ensures h.owner[p] == Chunk(c) && !(c in h.bigFree && c + 1 in h.live) {
      ChunkOwner(h, p, c);
    }
    match h.owner[p]
    case Refs =>
      assert PAGE_WORDS * p in h.role;
    case Sub(r) => ManagedBack(h, p, r);
    case Chunk(c) => ChunkBack(h, p, c);
  }

  lemma ManagedOwner(h: Heap, p: int, r: int)
    requires Inv(h) && h.lo <= p && ManagedBy(h, p, r)
    ensures p in h.owner && h.owner[p] == Sub(r) && h.role[r] != Fresh
  {
    hide BlockOn, BlockType, RefLists, FreeLists, Chunks, Lives;
    assert PageRefOk(h, r);
  }

  lemma ManagedBack(h: Heap, p: int, r: int)
    requires Inv(h) && p in h.owner && h.owner[p] == Sub(r)
    ensures ManagedBy(h, p, r)
  {
  }

  lemma ChunkOwner(h: Heap, p: int, c: int)
    requires Inv(h) && InChunk(h, p, c)
    ensures p in h.owner && h.owner[p] == Chunk(c) && !(c in h.bigFree && c + 1 in h.live)
  {
    hide BlockOn, PageOf, BlockType, RefLists, FreeLists, PageRefs;
    if c + 1 in h.live && h.live[c + 1] == Big { assert LiveOk(h, c + 1); }
  }

  lemma ChunkBack(h: Heap, p: int, c: int)
    requires Inv(h) && p in h.owner && h.owner[p] == Chunk(c)
    ensures InChunk(h, p, c)
  {
    hide BlockOn, PageOf, BlockType, RefLists, FreeLists, PageRefs;
    assert ChunkPageOk(h, p, c);
    if c + 1 in h.live && h.live[c + 1].Small? {
      assert LiveOk(h, c + 1);
      ChunkPointerIsBig(h, c);
    }
  }

  lemma ChunkPointerIsBig(h: Heap, c: int)
    requires Inv(h) && IsChunk(h, c) && c + 1 in h.live
    ensures h.live[c + 1] == Big
  {
    hide BlockOn, PageOf, BlockType, RefLists, FreeLists, PageRefs;
    LiveOkExtent(h, c + 1);
    LiveWordOwner(h, c + 1, c + 1);
    PageSpan(c, 1, c + 1);
    assert Page(c) in h.owner;
  }

  lemma LiveOkExtent(h: Heap, x: int)
    requires Inv(h) && x in h.live
    ensures Within(h, x, x)
  {
    hide BlockOn, PageOf, BlockType, RefLists, FreeLists, PageRefs;
    assert LiveOk(h, x);
  }
}
