/** The steps on big chunks: carving the tail off a free chunk, unlinking one that fits
    exactly, making one from new pages, and putting one back. Each keeps the invariant. */
module ChunkSteps {
  import opened Sequences
  import opened PageLayout
  import opened Chains
  import opened HeapState
  import opened HeapFrames
  import opened HeapSafety
  import opened BlockSteps
  import opened PageSteps

  ghost predicate NotChunkPage(h: Heap, p: int) {
    p in h.owner && !h.owner[p].Chunk?
  }

  /** Only chunk pages and pages not obtained before are affected. */
  ghost predicate ChunkStep(h: Heap, h': Heap) {
    && h' == h.(m := h'.m, hi := h'.hi, bigHead := h'.bigHead, bigFree := h'.bigFree,
                owner := h'.owner, live := h'.live)
    && Grows(h, h') && h'.hi <= PAGE_LIMIT && PAGE_WORDS * h'.hi <= |h'.m|
    && (forall w {:trigger Same(h, h', w)} :: NotChunkPage(h, Page(w)) ==> Same(h, h', w))
    && (forall p :: p in h'.owner <==> h'.lo <= p < h'.hi)
    && (forall p {:trigger NotChunkPage(h, p)} :: NotChunkPage(h, p) ==> p in h'.owner && h'.owner[p] == h.owner[p])
    && (forall p {:trigger NotChunkPage(h', p)} :: NotChunkPage(h', p) ==> p in h.owner && h.owner[p] == h'.owner[p])
    && (forall x {:trigger h.live[x]} :: x in h.live && h.live[x].Small? ==> x in h'.live && h'.live[x] == h.live[x])
    && (forall x {:trigger h'.live[x]} :: x in h'.live && h'.live[x].Small? ==> x in h.live && h.live[x] == h'.live[x])
    && (forall x :: (x in h.live) != (x in h'.live) ==> !NotChunkPage(h, Page(x)))
  }

  lemma ChunkStepShape(h: Heap, h': Heap)
    requires Inv(h) && ChunkStep(h, h')
    ensures Shape(h')
  {
    hide RefLists, PageRefs, FreeLists, Chunks, Lives;
    forall r ensures r in h'.role <==> r % REF_WORDS == 0 && Page(r) in h'.owner && h'.owner[Page(r)] == Refs {
      if Page(r) in h'.owner && h'.owner[Page(r)] == Refs { assert NotChunkPage(h', Page(r)); }
      if r in h.role { assert NotChunkPage(h, Page(r)); }
    }
  }

  lemma ChunkStepRefLists(h: Heap, h': Heap)
    requires Inv(h) && ChunkStep(h, h') && Shape(h')
    ensures RefLists(h')
  {
    hide PageRefs, FreeLists, Chunks, Lives;
    forall r | r in h.role ensures Same(h, h', r + NEXT) {
      SlotWordSame(h, h', r, NEXT);
    }
    RefListsFrame(h, h');
  }

  lemma ChunkStepPageRefs(h: Heap, h': Heap)
    requires Inv(h) && ChunkStep(h, h')
    ensures PageRefs(h')
  {
    hide PageOf, BlockType, FreeLists, Chunks, Lives, RefLists;
    forall r | r in h'.role ensures PageRefOk(h', r) {
      assert PageRefOk(h, r);
      SlotWordSame(h, h', r, PAB);
      if HasPage(h, r) { assert NotChunkPage(h, PageOfRef(h, r)); }
    }
    forall p | p in h'.owner && h'.owner[p].Sub?
      ensures h'.owner[p].ref in h'.role && h'.role[h'.owner[p].ref] != Fresh && PageOfRef(h', h'.owner[p].ref) == p
    {
      assert NotChunkPage(h', p);
      SlotWordSame(h, h', h.owner[p].ref, PAB);
    }
  }

  lemma SlotWordSame(h: Heap, h': Heap, r: int, i: int)
    requires Inv(h) && ChunkStep(h, h') && r in h.role && 0 <= i < REF_WORDS
    ensures Same(h, h', r + i)
  {
    hide BlockOn, PageOf, BlockType, FreeLists, Chunks, Lives, RefLists, PageRefs;
    SlotArithmetic(r);
    PageBounds(Page(r), r + i);
    assert NotChunkPage(h, Page(r + i));
  }

  lemma ChunkStepFreeList(h: Heap, h': Heap, r: int)
    requires Inv(h) && ChunkStep(h, h') && r in h.role && h.role[r].InUse?
    ensures FreeListOk(h', r)
  {
    hide BlockOn, PageOf, BlockType, Chunks, Lives, RefLists;
    assert FreeListOk(h, r) && PageRefOk(h, r);
    SlotWordSame(h, h', r, FLIST);
    SlotWordSame(h, h', r, PAB);
    SlotWordSame(h, h', r, NFREE);
    forall a | BlockOn(a, PageOfRef(h, r), h.role[r].k) ensures Same(h, h', a + 0) && (a in h'.live <==> a in h.live) {
      BlockOwner(h, r, a);
      assert NotChunkPage(h, Page(a));
    }
    FreeListFrame(h, h', r);
  }

  lemma ChunkStepSmall(h: Heap, h': Heap, x: int)
    requires Inv(h) && ChunkStep(h, h') && x in h'.live && h'.live[x].Small?
    ensures LiveOk(h', x)
  {
    hide BlockOn, PageOf, BlockType, Chunks, RefLists, PageRefs, FreeLists;
    assert h.live[x] == h'.live[x] && LiveOk(h, x);
    SlotWordSame(h, h', h.live[x].ref, PAB);
    LiveSmallFrame(h, h', x, h.live[x].ref);
  }

  /** What is left to show for such a step is the chunk part and the big live blocks. */
  lemma ChunkStepInv(h: Heap, h': Heap)
    requires Inv(h) && ChunkStep(h, h') && Chunks(h')
    requires forall x :: x in h'.live && h'.live[x] == Big ==> IsChunk(h', x - 1)
    ensures Inv(h')
  {
    hide BlockOn, PageOf, BlockType, Chunks, RefLists, PageRefs;
    ChunkStepShape(h, h');
    ChunkStepRefLists(h, h');
    ChunkStepPageRefs(h, h');
    forall r | r in h'.role && h'.role[r].InUse? ensures FreeListOk(h', r) {
      ChunkStepFreeList(h, h', r);
    }
    forall x | x in h'.live ensures LiveOk(h', x) {
      if h'.live[x].Small? { ChunkStepSmall(h, h', x); }
    }
  }

  // ------------------------------------------------------------ carving

  /** The last `n` pages of the free chunk at position `i` become a live chunk. */
  ghost function Carve(h: Heap, i: nat, n: int): Heap
    requires Inv(h) && i < |h.bigFree| && 1 <= n < Word(h, h.bigFree[i])
  {
    var c := h.bigFree[i];
    var rest := Word(h, c) - n;
    var d := c + PAGE_WORDS * rest;
    CarveBounds(h, i, n);
    h.(m := h.m[c := rest][d := n],
       owner := map p | p in h.owner :: if Page(d) <= p < Page(d) + n then Chunk(d) else h.owner[p],
       live := h.live[d + 1 := Big])
  }

  lemma CarveBounds(h: Heap, i: nat, n: int)
    requires Inv(h) && i < |h.bigFree| && 1 <= n < Word(h, h.bigFree[i])
    ensures var c := h.bigFree[i]; var d := c + PAGE_WORDS * (Word(h, c) - n);
            && IsChunk(h, c) && d % PAGE_WORDS == 0 && Page(d) == Page(c) + Word(h, c) - n
            && 0 < c < c + 1 < d < d + 1 < |h.m| && Page(d + 1) == Page(d)
            && Page(d) in h.owner && h.owner[Page(d)] == Chunk(c)
            && d !in h.bigFree && c in h.bigFree
            && (forall p {:trigger h.owner[p]} :: Page(d) <= p < Page(d) + n ==> p in h.owner && h.owner[p] == Chunk(c))
  {
    hide RefLists, PageRefs, FreeLists, Lives;
    var c := h.bigFree[i];
    var d := c + PAGE_WORDS * (Word(h, c) - n);
    assert c in h.bigFree;
    ChunkHeader(h, c);
    PageSpan(c, Word(h, c), d);
    if d in h.bigFree { ChunkHeader(h, d); }
  }

  lemma CarveIsChunkStep(h: Heap, i: nat, n: int)
    requires Inv(h) && i < |h.bigFree| && 1 <= n < Word(h, h.bigFree[i])
    ensures ChunkStep(h, Carve(h, i, n))
  {
    hide BlockOn, PageOf, BlockType, RefLists, PageRefs, FreeLists, Chunks, IsChunk;
    var h', c := Carve(h, i, n), h.bigFree[i];
    var d := c + PAGE_WORDS * (Word(h, c) - n);
    CarveBounds(h, i, n);
    ChunkHeader(h, c);
    forall x | x in h.live && h.live[x].Small? ensures x != d + 1 {
      assert LiveOk(h, x);
      LiveWordOwner(h, x, x);
    }
    forall p | p in h.owner ensures h'.owner[p] == h.owner[p] || (h.owner[p] == Chunk(c) && h'.owner[p] == Chunk(d)) {
      if Page(d) <= p < Page(d) + n { assert h.owner[p] == Chunk(c); }
    }
  }

  lemma CarveChunk(h: Heap, i: nat, n: int, b: int)
    requires Inv(h) && i < |h.bigFree| && 1 <= n < Word(h, h.bigFree[i]) && IsChunk(h, b)
    ensures IsChunk(Carve(h, i, n), b)
    ensures b != h.bigFree[i] ==> Word(Carve(h, i, n), b) == Word(h, b)
    ensures Word(Carve(h, i, n), h.bigFree[i]) == Word(h, h.bigFree[i]) - n
  {
    hide BlockOn, PageOf, BlockType, RefLists, PageRefs, FreeLists, Chunks, Lives;
    CarveBounds(h, i, n);
    ChunkHeader(h, b);
    var h' := Carve(h, i, n);
    forall p | Page(b) <= p < Page(b) + Word(h', b) ensures p in h'.owner && h'.owner[p] == Chunk(b) {
      assert h.owner[p] == Chunk(b);
    }
  }

  lemma CarvedChunk(h: Heap, i: nat, n: int)
    requires Inv(h) && i < |h.bigFree| && 1 <= n < Word(h, h.bigFree[i])
    ensures var d := h.bigFree[i] + PAGE_WORDS * (Word(h, h.bigFree[i]) - n);
            IsChunk(Carve(h, i, n), d) && Word(Carve(h, i, n), d) == n
  {
    hide BlockOn, PageOf, BlockType, RefLists, PageRefs, FreeLists, Chunks, Lives;
    CarveBounds(h, i, n);
    var h', d := Carve(h, i, n), h.bigFree[i] + PAGE_WORDS * (Word(h, h.bigFree[i]) - n);
    forall p | Page(d) <= p < Page(d) + n ensures p in h'.owner && h'.owner[p] == Chunk(d) {
      assert h.owner[p] == Chunk(h.bigFree[i]);
    }
  }

  lemma CarveFreeChunk(h: Heap, i: nat, n: int, b: int)
    requires Inv(h) && i < |h.bigFree| && 1 <= n < Word(h, h.bigFree[i]) && b in h.bigFree
    ensures IsChunk(Carve(h, i, n), b) && b + 1 !in Carve(h, i, n).live && Same(h, Carve(h, i, n), b + 1)
  {
    hide RefLists, PageRefs, FreeLists, Lives;
    CarveBounds(h, i, n);
    CarveChunk(h, i, n, b);
    ChunkHeader(h, b);
  }

  lemma CarveFreeChunks(h: Heap, i: nat, n: int)
    requires Inv(h) && i < |h.bigFree| && 1 <= n < Word(h, h.bigFree[i])
    ensures Chain(Carve(h, i, n).m, h.bigHead, h.bigFree, 1)
    ensures forall b :: b in h.bigFree ==> IsChunk(Carve(h, i, n), b) && b + 1 !in Carve(h, i, n).live
  {
    hide RefLists, PageRefs, FreeLists, Lives, IsChunk;
    var h' := Carve(h, i, n);
    CarveBounds(h, i, n);
    forall b | b in h.bigFree ensures IsChunk(h', b) && b + 1 !in h'.live && Same(h, h', b + 1) {
      CarveFreeChunk(h, i, n, b);
    }
    ChainSame(h, h', h.bigHead, h.bigFree, 1);
  }

  lemma CarveLive(h: Heap, i: nat, n: int, x: int)
    requires Inv(h) && i < |h.bigFree| && 1 <= n < Word(h, h.bigFree[i])
    requires x in Carve(h, i, n).live && Carve(h, i, n).live[x] == Big
    ensures IsChunk(Carve(h, i, n), x - 1)
  {
    hide BlockOn, PageOf, BlockType, RefLists, PageRefs, FreeLists, Chain, IsChunk;
    CarvedChunk(h, i, n);
    if x in h.live && h.live[x] == Big {
      assert LiveOk(h, x);
      CarveChunk(h, i, n, x - 1);
    }
  }

  lemma CarveInv(h: Heap, i: nat, n: int)
    requires Inv(h) && i < |h.bigFree| && 1 <= n < Word(h, h.bigFree[i])
    ensures Inv(Carve(h, i, n))
  {
    hide BlockOn, PageOf, BlockType, RefLists, PageRefs, FreeLists, Chain, IsChunk, Lives, Shape;
    var h' := Carve(h, i, n);
    CarveIsChunkStep(h, i, n);
    CarveFreeChunks(h, i, n);
    forall p | p in h'.owner && h'.owner[p].Chunk? ensures ChunkPageOk(h', p, h'.owner[p].hdr) {
      CarvePage(h, i, n, p);
    }
    forall x | x in h'.live && h'.live[x] == Big ensures IsChunk(h', x - 1) {
      CarveLive(h, i, n, x);
    }
    ChunkStepInv(h, h');
  }

  lemma CarvePage(h: Heap, i: nat, n: int, p: int)
    requires Inv(h) && i < |h.bigFree| && 1 <= n < Word(h, h.bigFree[i])
    requires p in Carve(h, i, n).owner && Carve(h, i, n).owner[p].Chunk?
    ensures ChunkPageOk(Carve(h, i, n), p, Carve(h, i, n).owner[p].hdr)
  {
    hide RefLists, PageRefs, FreeLists, Lives, Chain, IsChunk;
    CarveBounds(h, i, n);
    CarvedChunk(h, i, n);
    assert ChunkPageOk(h, p, h.owner[p].hdr);
    CarveChunk(h, i, n, h.owner[p].hdr);
  }

  // ------------------------------------------------------------ exact fit

  /** The free chunk at position `i` is unlinked and becomes live as it is. */
  ghost function Unlink(h: Heap, i: nat): Heap
    requires Inv(h) && i < |h.bigFree|
  {
    h.(m := UnlinkMemory(h.m, h.bigFree, 1, i),
       bigHead := UnlinkHead(h.m, h.bigHead, h.bigFree, 1, i),
       bigFree := Without(h.bigFree, i),
       live := h.live[h.bigFree[i] + 1 := Big])
  }

  lemma FreeChunkFacts(h: Heap, i: nat)
    requires Inv(h) && i < |h.bigFree|
    ensures var c := h.bigFree[i];
            && c in h.bigFree && IsChunk(h, c) && c + 1 !in h.live && Page(c + 1) == Page(c)
            && 0 < c && c + 1 < |h.m| && Page(c) in h.owner && h.owner[Page(c)] == Chunk(c)
  {
    hide RefLists, PageRefs, FreeLists, Lives;
    assert h.bigFree[i] in h.bigFree;
    ChunkHeader(h, h.bigFree[i]);
  }

  lemma UnlinkSame(h: Heap, i: nat, w: int)
    requires Inv(h) && i < |h.bigFree| && (i == 0 || w != h.bigFree[i - 1] + 1)
    ensures Same(h, Unlink(h, i), w)
  {
    hide RefLists, PageRefs, FreeLists, Lives;
  }

  lemma UnlinkIsChunkStep(h: Heap, i: nat)
    requires Inv(h) && i < |h.bigFree|
    ensures ChunkStep(h, Unlink(h, i))
  {
    hide BlockOn, PageOf, BlockType, RefLists, PageRefs, FreeLists, Lives, UnlinkMemory, UnlinkHead, Chunks, IsChunk;
    var h' := Unlink(h, i);
    FreeChunkFacts(h, i);
    if i > 0 { FreeChunkFacts(h, i - 1); }
    forall w {:trigger Same(h, h', w)} | NotChunkPage(h, Page(w)) ensures Same(h, h', w) {
      UnlinkSame(h, i, w);
    }
  }

  lemma UnlinkKeepsChunk(h: Heap, i: nat, b: int)
    requires Inv(h) && i < |h.bigFree| && IsChunk(h, b)
    ensures IsChunk(Unlink(h, i), b) && Word(Unlink(h, i), b) == Word(h, b)
  {
    hide BlockOn, PageOf, BlockType, RefLists, PageRefs, FreeLists, Lives, UnlinkMemory, UnlinkHead, Chunks;
    ChunkHeader(h, b);
    if i > 0 { FreeChunkFacts(h, i - 1); }
    UnlinkSame(h, i, b);
  }

  lemma UnlinkFreeChunks(h: Heap, i: nat)
    requires Inv(h) && i < |h.bigFree|
    ensures var h' := Unlink(h, i);
            Chain(h'.m, h'.bigHead, h'.bigFree, 1) && Distinct(h'.bigFree)
            && forall b :: b in h'.bigFree <==> b in h.bigFree && b != h.bigFree[i]
  {
    ChainRemove(h.m, h.bigHead, h.bigFree, 1, i);
  }

  lemma UnlinkInv(h: Heap, i: nat)
    requires Inv(h) && i < |h.bigFree|
    ensures Inv(Unlink(h, i))
  {
    hide BlockOn, PageOf, BlockType, RefLists, PageRefs, FreeLists, Chain, IsChunk;
    var h' := Unlink(h, i);
    FreeChunkFacts(h, i);
    UnlinkIsChunkStep(h, i);
    UnlinkFreeChunks(h, i);
    forall p | p in h'.owner && h'.owner[p].Chunk? ensures ChunkPageOk(h', p, h'.owner[p].hdr) {
      assert ChunkPageOk(h, p, h.owner[p].hdr);
      UnlinkKeepsChunk(h, i, h.owner[p].hdr);
    }
    forall b | b in h.bigFree ensures IsChunk(h', b) {
      UnlinkKeepsChunk(h, i, b);
    }
    forall x | x in h'.live && h'.live[x] == Big ensures IsChunk(h', x - 1) {
      if x in h.live && h.live[x] == Big { assert LiveOk(h, x); }
      UnlinkKeepsChunk(h, i, x - 1);
    }
    ChunkStepInv(h, h');
  }

  // ------------------------------------------------------------ new pages

  /** `n` newly obtained pages become one live chunk. */
  ghost function NewChunk(h: Heap, n: int): Heap
    requires Inv(h) && CanGrow(h, n)
  {
    var c := PAGE_WORDS * h.hi;
    h.(m := h.m[c := n], hi := h.hi + n,
       owner := map p | h.lo <= p < h.hi + n :: if p < h.hi then h.owner[p] else Chunk(c),
       live := h.live[c + 1 := Big])
  }

  lemma NewChunkIsChunkStep(h: Heap, n: int)
    requires Inv(h) && CanGrow(h, n)
    ensures ChunkStep(h, NewChunk(h, n))
  {
    hide BlockOn, PageOf, BlockType, RefLists, PageRefs, FreeLists, Chunks;
    var c := PAGE_WORDS * h.hi;
    PageSpan(c, 1, c + 1);
    forall x | x in h.live && h.live[x].Small? ensures x != c + 1 {
      assert LiveOk(h, x);
      LiveWordOwner(h, x, x);
    }
  }

  lemma NewChunkChunks(h: Heap, n: int)
    requires Inv(h) && CanGrow(h, n)
    ensures forall b :: IsChunk(h, b) ==> IsChunk(NewChunk(h, n), b) && Word(NewChunk(h, n), b) == Word(h, b)
    ensures IsChunk(NewChunk(h, n), PAGE_WORDS * h.hi)
  {
    hide BlockOn, PageOf, BlockType, RefLists, PageRefs, FreeLists, Chunks, Lives;
    var h' := NewChunk(h, n);
    forall b | IsChunk(h, b) ensures IsChunk(h', b) && Same(h, h', b) {
      ChunkHeader(h, b);
      IsChunkFrame(h, h', b);
    }
  }

  lemma NewChunkFreeChunks(h: Heap, n: int)
    requires Inv(h) && CanGrow(h, n)
    ensures Chain(NewChunk(h, n).m, h.bigHead, h.bigFree, 1)
    ensures forall b :: b in h.bigFree ==> b != PAGE_WORDS * h.hi
  {
    hide BlockOn, PageOf, BlockType, RefLists, PageRefs, FreeLists, Lives;
    var h' := NewChunk(h, n);
    forall b | b in h.bigFree ensures b != PAGE_WORDS * h.hi && Same(h, h', b + 1) {
      ChunkHeader(h, b);
    }
    ChainSame(h, h', h.bigHead, h.bigFree, 1);
  }

  lemma NewChunkPage(h: Heap, n: int, p: int)
    requires Inv(h) && CanGrow(h, n) && p in NewChunk(h, n).owner && NewChunk(h, n).owner[p].Chunk?
    ensures ChunkPageOk(NewChunk(h, n), p, NewChunk(h, n).owner[p].hdr)
  {
    hide RefLists, PageRefs, FreeLists, Chain, IsChunk, Lives;
    NewChunkChunks(h, n);
    if p < h.hi { assert ChunkPageOk(h, p, h.owner[p].hdr); }
  }

  lemma NewChunkInv(h: Heap, n: int)
    requires Inv(h) && CanGrow(h, n)
    ensures Inv(NewChunk(h, n))
  {
    hide RefLists, PageRefs, FreeLists, Chain, IsChunk, ChunkPageOk, ChunkStep, Page, Word;
    var h' := NewChunk(h, n);
    NewChunkIsChunkStep(h, n);
    NewChunkChunks(h, n);
    NewChunkFreeChunks(h, n);
    forall p | p in h'.owner && h'.owner[p].Chunk? ensures ChunkPageOk(h', p, h'.owner[p].hdr) {
      NewChunkPage(h, n, p);
    }
    forall x | x in h'.live && h'.live[x] == Big ensures IsChunk(h', x - 1) {
      if x in h.live && h.live[x] == Big { assert LiveOk(h, x); }
    }
    ChunkStepInv(h, h');
  }

  // ------------------------------------------------------------ freeing

  /** A big block's chunk goes to the front of the free chunks, header untouched. */
  ghost function Release(h: Heap, x: int): Heap
    requires Inv(h) && x in h.live && h.live[x] == Big
  {
    assert LiveOk(h, x);
    h.(m := h.m[x := h.bigHead], bigHead := x - 1, bigFree := [x - 1] + h.bigFree, live := h.live - {x})
  }

  lemma ReleaseIsChunkStep(h: Heap, x: int)
    requires Inv(h) && x in h.live && h.live[x] == Big
    ensures ChunkStep(h, Release(h, x))
    ensures forall b :: IsChunk(h, b) ==> IsChunk(Release(h, x), b) && Word(Release(h, x), b) == Word(h, b)
  {
    hide BlockOn, PageOf, BlockType, RefLists, PageRefs, FreeLists, Chunks;
    var h' := Release(h, x);
    assert LiveOk(h, x);
    ChunkHeader(h, x - 1);
    forall b | IsChunk(h, b) ensures IsChunk(h', b) && Same(h, h', b) {
      ChunkHeader(h, b);
    }
  }

  lemma ReleaseFreeChunks(h: Heap, x: int)
    requires Inv(h) && x in h.live && h.live[x] == Big
    ensures var h' := Release(h, x);
            Chain(h'.m, h'.bigHead, h'.bigFree, 1) && Distinct(h'.bigFree)
            && forall b :: b in h'.bigFree <==> b == x - 1 || b in h.bigFree
  {
    hide BlockOn, PageOf, BlockType, RefLists, PageRefs, FreeLists;
    var h' := Release(h, x);
    assert LiveOk(h, x);
    ChunkHeader(h, x - 1);
    ChainPush(h.m, h'.m, h.bigHead, h.bigFree, 1, x - 1);
  }

  lemma ReleaseInv(h: Heap, x: int)
    requires Inv(h) && x in h.live && h.live[x] == Big
    ensures Inv(Release(h, x))
  {
    hide BlockOn, PageOf, BlockType, RefLists, PageRefs, FreeLists, Chain, IsChunk;
    var h' := Release(h, x);
    assert LiveOk(h, x);
    ReleaseIsChunkStep(h, x);
    ReleaseFreeChunks(h, x);
    forall p | p in h'.owner && h'.owner[p].Chunk? ensures ChunkPageOk(h', p, h'.owner[p].hdr) {
      assert ChunkPageOk(h, p, h.owner[p].hdr);
    }
    forall y | y in h'.live && h'.live[y] == Big ensures IsChunk(h', y - 1) {
      assert LiveOk(h, y);
    }
    ChunkStepInv(h, h');
  }
}
