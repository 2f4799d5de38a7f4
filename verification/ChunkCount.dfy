/** The pages of the big chunks: the header counts of all chunks, free and live, add up to the
    pages that chunks own, and no big request or free loses or invents one. */
module ChunkCount {
  import opened PageLayout
  import opened HeapState
  import opened HeapSafety
  import opened ChunkSteps
  import opened PageSteps
  import opened HeapPrivacy
  import opened SetSums

  /** The headers of all chunks. */
  ghost function Headers(h: Heap): set<int> {
    (set c | c in h.bigFree) + (set x | x in h.live && h.live[x] == Big :: x - 1)
  }

  /** What each header says: how many pages its chunk has. */
  ghost function Counts(h: Heap): (w: map<int, int>)
    ensures Covers(Headers(h), w)
  {
    map c | c in Headers(h) :: Word(h, c)
  }

  ghost function CountedPages(h: Heap): int {
    Sum(Headers(h), Counts(h))
  }

  /** The pages of the chunks with these headers. */
  ghost function PagesOfChunks(h: Heap, s: set<int>): set<int> {
    set p | p in h.owner && h.owner[p].Chunk? && h.owner[p].hdr in s
  }

  /** All pages owned by chunks. */
  ghost function ChunkPages(h: Heap): set<int> {
    set p | p in h.owner && h.owner[p].Chunk?
  }

  /** The run of `n` pages from page `a`. */
  ghost function Range(a: int, n: nat): (s: set<int>)
    ensures |s| == n && forall p :: p in s <==> a <= p < a + n
  {
    if n == 0 then {} else Range(a, n - 1) + {a + n - 1}
  }

  lemma HeaderIsChunk(h: Heap, c: int)
    requires Inv(h) && c in Headers(h)
    ensures IsChunk(h, c)
  {
    hide BlockOn, PageOf, BlockType, RefLists, FreeLists, PageRefs;
    if c !in h.bigFree { assert LiveOk(h, c + 1); }
  }

  /** A chunk's own pages are the run of pages that its header counts. */
  lemma OneChunk(h: Heap, c: int)
    requires Inv(h) && c in Headers(h)
    ensures 1 <= Word(h, c) && PagesOfChunks(h, {c}) == Range(Page(c), Word(h, c))
  {
    HeaderIsChunk(h, c);
    hide BlockOn, PageOf, BlockType, RefLists, FreeLists, PageRefs, Lives, Page;
    forall p | p in PagesOfChunks(h, {c}) ensures p in Range(Page(c), Word(h, c)) {
      assert ChunkPageOk(h, p, c);
    }
    forall p | p in Range(Page(c), Word(h, c)) ensures p in PagesOfChunks(h, {c}) {
      assert p in h.owner && h.owner[p] == Chunk(c);
    }
  }

  lemma {:induction false} PagesCounted(h: Heap, s: set<int>)
    requires Inv(h) && forall c :: c in s ==> c in Headers(h)
    ensures Sum(s, Counts(h)) == |PagesOfChunks(h, s)|
    decreases s
  {
    hide Inv;
    if s == {} {
      assert PagesOfChunks(h, s) == {};
    } else {
      HasElement(s);
      var c :| c in s;
      SumRemove(s, Counts(h), c);
      PagesCounted(h, s - {c});
      OneMoreChunk(h, s, c);
    }
  }

  lemma OneMoreChunk(h: Heap, s: set<int>, c: int)
    requires Inv(h) && c in Headers(h) && c in s
    ensures |PagesOfChunks(h, s)| == |PagesOfChunks(h, s - {c})| + Word(h, c)
  {
    OneChunk(h, c);
    ChunkApart(h, s, c);
    assert |PagesOfChunks(h, {c})| == Word(h, c);
    hide *;
  }

  lemma ChunkApart(h: Heap, s: set<int>, c: int)
    requires c in s
    ensures PagesOfChunks(h, s) == PagesOfChunks(h, s - {c}) + PagesOfChunks(h, {c})
    ensures PagesOfChunks(h, s - {c}) !! PagesOfChunks(h, {c})
  {
  }

  /** Every page owned by a chunk is counted by exactly one header, and nothing else is. */
  lemma CountsMatchPages(h: Heap)
    requires Inv(h)
    ensures CountedPages(h) == |ChunkPages(h)|
  {
    PagesCounted(h, Headers(h));
    forall p | p in h.owner && h.owner[p].Chunk? ensures h.owner[p].hdr in Headers(h) {
      OwnedByHeader(h, p);
    }
    assert PagesOfChunks(h, Headers(h)) == ChunkPages(h);
  }

  lemma OwnedByHeader(h: Heap, p: int)
    requires Inv(h) && p in h.owner && h.owner[p].Chunk?
    ensures h.owner[p].hdr in Headers(h)
  {
    var c := h.owner[p].hdr;
    assert ChunkPageOk(h, p, c);
    if c !in h.bigFree {
      ChunkPointerIsBig(h, c);
      var x := c + 1;
      assert x in h.live && h.live[x] == Big && x - 1 == c;
    }
  }

  /** Handing out a free chunk, its tail or all of it, keeps the sum. */
  lemma UseChunkCounts(h: Heap, i: nat, n: int)
    requires Inv(h) && i < |h.bigFree| && 1 <= n <= Word(h, h.bigFree[i])
    ensures CountedPages(UseChunk(h, i, n)) == CountedPages(h)
  {
    if Word(h, h.bigFree[i]) == n { UnlinkInv(h, i); } else { CarveInv(h, i, n); CarveOwners(h, i, n); }
    CountsMatchPages(h);
    CountsMatchPages(UseChunk(h, i, n));
    hide Inv;
    assert ChunkPages(UseChunk(h, i, n)) == ChunkPages(h);
  }

  lemma CarveOwners(h: Heap, i: nat, n: int)
    requires Inv(h) && i < |h.bigFree| && 1 <= n < Word(h, h.bigFree[i])
    ensures ChunkPages(Carve(h, i, n)) == ChunkPages(h)
  {
    hide RefLists, PageRefs, FreeLists, Lives;
    FreeChunkFacts(h, i);
    CarveBounds(h, i, n);
    var c := h.bigFree[i];
    var d := c + PAGE_WORDS * (Word(h, c) - n);
    forall p | Page(d) <= p < Page(d) + n ensures p in h.owner && h.owner[p] == Chunk(c) {
      assert Page(d) == Page(c) + Word(h, c) - n;
    }
  }

  /** So does freeing a chunk. */
  lemma ReleaseCounts(h: Heap, x: int)
    requires Inv(h) && x in h.live && h.live[x] == Big
    ensures CountedPages(Release(h, x)) == CountedPages(h)
  {
    ReleaseInv(h, x);
    CountsMatchPages(h);
    CountsMatchPages(Release(h, x));
    hide Inv;
    assert ChunkPages(Release(h, x)) == ChunkPages(h);
  }

  /** New pages for a chunk raise it by their number. */
  lemma NewChunkCounts(h: Heap, n: int)
    requires Inv(h) && CanGrow(h, n)
    ensures CountedPages(NewChunk(h, n)) == CountedPages(h) + n
  {
    var h' := NewChunk(h, n);
    NewChunkInv(h, n);
    CountsMatchPages(h);
    CountsMatchPages(h');
    NewChunkOwners(h, n);
    hide Inv, CountedPages, ChunkPages, Range;
  }

  lemma NewChunkOwners(h: Heap, n: int)
    requires Inv(h) && CanGrow(h, n)
    ensures ChunkPages(NewChunk(h, n)) == ChunkPages(h) + Range(h.hi, n) && ChunkPages(h) !! Range(h.hi, n)
  {
    hide RefLists, PageRefs, FreeLists, Chunks, Lives, Range, Word;
    var h' := NewChunk(h, n);
    forall p ensures p in ChunkPages(h') <==> p in ChunkPages(h) || p in Range(h.hi, n) {
      if h.lo <= p < h.hi { assert p in h.owner; }
    }
  }

  /** The header counts of the two parts of a split chunk add up to the old one. */
  lemma CarvedCounts(h: Heap, i: nat, n: int)
    requires Inv(h) && i < |h.bigFree| && 1 <= n < Word(h, h.bigFree[i])
    ensures var h', c := Carve(h, i, n), h.bigFree[i];
            var d := c + PAGE_WORDS * (Word(h, c) - n);
            Word(h', c) >= 1 && Word(h', d) == n && Word(h', c) + Word(h', d) == Word(h, c)
  {
    hide RefLists, PageRefs, FreeLists, Lives;
    CarveBounds(h, i, n);
  }
}
