/** The two steps on one page's free list: popping a block for a caller and pushing a
    block back. Each keeps the invariant. */
module BlockSteps {
  import opened PageLayout
  import opened Chains
  import opened HeapState
  import opened HeapFrames
  import opened HeapSafety

  // Words of different pagerefs are different words.
  lemma SlotsApart(r: int, q: int, i: int, j: int)
    requires r % REF_WORDS == 0 && q % REF_WORDS == 0 && 0 <= i < REF_WORDS && 0 <= j < REF_WORDS
    requires r != q || i != j
    ensures r + i != q + j
  {
  }

  /** `h'` is `h` with the free list of `r` changed at its head, and with block `x` of that
      page becoming live or free. Only the `flist` and `nfree` words of `r` and words of the
      block may differ. */
  ghost predicate BlockStep(h: Heap, h': Heap, r: int, x: int) {
    && r in h.role && h.role[r].InUse? && h.role[r].k < NSIZES
    && BlockOn(x, PageOfRef(h, r), h.role[r].k)
    && h' == h.(m := h'.m, flist := h'.flist, live := h'.live)
    && |h'.m| == |h.m|
    && (forall w {:trigger Same(h, h', w)} ::
          w != r + FLIST && w != r + NFREE && !(x <= w < x + BlockWords(h.role[r].k)) ==> Same(h, h', w))
    && (forall q :: q in h.flist && q != r ==> q in h'.flist && h'.flist[q] == h.flist[q])
    && (forall y :: y != x ==> (y in h'.live <==> y in h.live))
    && (forall y :: y != x && y in h.live ==> h'.live[y] == h.live[y])
  }

  /** Words outside the page of `r` and outside its slot keep their value. */
  lemma BlockStepSame(h: Heap, h': Heap, r: int, x: int, w: int)
    requires Inv(h) && BlockStep(h, h', r, x)
    requires w != r + FLIST && w != r + NFREE
    requires Page(w) in h.owner ==> h.owner[Page(w)] != Sub(r)
    ensures Same(h, h', w)
  {
    hide BlockOn, PageOf, BlockType, RefLists, FreeLists, Chunks, Lives;
    assert PageRefOk(h, r);
    if x <= w < x + BlockWords(h.role[r].k) {
      BlockStaysOnPage(x, PageOfRef(h, r), h.role[r].k);
      PageBounds(PageOfRef(h, r), w);
    }
  }

  /** The words of every pageref, but for the two that the step may change. */
  lemma BlockStepRef(h: Heap, h': Heap, r: int, x: int, q: int, i: int)
    requires Inv(h) && BlockStep(h, h', r, x) && q in h.role && 0 <= i < REF_WORDS
    requires q == r ==> i == NEXT || i == PAB
    ensures Same(h, h', q + i)
  {
    hide BlockOn, PageOf, BlockType, RefLists, FreeLists, Chunks, Lives, PageRefs;
    SlotArithmetic(q);
    SlotsApart(r, q, FLIST, i);
    SlotsApart(r, q, NFREE, i);
    BlockStepSame(h, h', r, x, q + i);
  }

  lemma BlockStepRefs(h: Heap, h': Heap, r: int, x: int)
    requires Inv(h) && BlockStep(h, h', r, x)
    ensures Shape(h') && RefLists(h') && PageRefs(h')
  {
    BlockStepPageRefs(h, h', r, x);
    hide BlockOn, PageOf, BlockType, PageRefs, FreeLists, Chunks, Lives;
    forall q | q in h.role ensures Same(h, h', q + NEXT) {
      BlockStepRef(h, h', r, x, q, NEXT);
    }
    RefListsFrame(h, h');
  }

  lemma BlockStepPageRefs(h: Heap, h': Heap, r: int, x: int)
    requires Inv(h) && BlockStep(h, h', r, x)
    ensures PageRefs(h')
  {
    hide BlockOn, PageOf, BlockType, RefLists, FreeLists, Chunks, Lives;
    forall q | q in h.role ensures Same(h, h', q + PAB) {
      BlockStepRef(h, h', r, x, q, PAB);
    }
    forall q | q in h'.role ensures PageRefOk(h', q) {
      assert PageRefOk(h, q) && Same(h, h', q + PAB);
    }
    forall p | p in h'.owner && h'.owner[p].Sub?
      ensures h'.owner[p].ref in h'.role && h'.role[h'.owner[p].ref] != Fresh && PageOfRef(h', h'.owner[p].ref) == p
    {
      assert Same(h, h', h.owner[p].ref + PAB);
    }
  }

  lemma BlockStepChunks(h: Heap, h': Heap, r: int, x: int)
    requires Inv(h) && Shape(h') && BlockStep(h, h', r, x)
    ensures Chunks(h')
  {
    hide BlockOn, PageOf, BlockType, RefLists, FreeLists, Lives;
    forall p | p in h.owner && h.owner[p].Chunk? ensures SameChunkPage(h, h', p) {
      BlockStepChunkPage(h, h', r, x, p);
    }
    ChunksFrame(h, h');
  }

  lemma BlockStepChunkPage(h: Heap, h': Heap, r: int, x: int, p: int)
    requires Inv(h) && BlockStep(h, h', r, x) && p in h.owner && h.owner[p].Chunk?
    ensures SameChunkPage(h, h', p)
  {
    hide BlockOn, PageOf, BlockType, RefLists, FreeLists, Lives;
    var c := h.owner[p].hdr;
    assert ChunkPageOk(h, p, c);
    ChunkHeader(h, c);
    RefWordsInHeap(h, r);
    SlotArithmetic(r);
    BlockStepSame(h, h', r, x, c);
    BlockStepSame(h, h', r, x, c + 1);
    BlockOwner(h, r, x);
  }

  /** The block of the step lies on the page that `r` owns. */
  lemma BlockOwner(h: Heap, r: int, x: int)
    requires PageRefOk(h, r) && h.role[r].InUse? && BlockOn(x, PageOfRef(h, r), h.role[r].k)
    ensures Page(x) == PageOfRef(h, r) && Page(x) in h.owner && h.owner[Page(x)] == Sub(r)
  {
    PageBounds(PageOfRef(h, r), x);
  }

  lemma BlockStepLive(h: Heap, h': Heap, r: int, x: int, y: int)
    requires Inv(h) && BlockStep(h, h', r, x) && y in h'.live && y != x
    ensures LiveOk(h', y)
  {
    hide BlockOn, PageOf, BlockType, RefLists, FreeLists;
    assert LiveOk(h, y);
    match h.live[y]
    case Small(q) =>
      BlockStepRef(h, h', r, x, q, PAB);
      LiveSmallFrame(h, h', y, q);
    case Big =>
      ChunkHeader(h, y - 1);
      BlockStepChunkPage(h, h', r, x, Page(y - 1));
      LiveBigFrame(h, h', y);
  }

  lemma BlockStepOtherLists(h: Heap, h': Heap, r: int, x: int, q: int)
    requires Inv(h) && BlockStep(h, h', r, x) && q in h.role && h.role[q].InUse? && q != r
    ensures FreeListOk(h', q)
  {
    hide BlockOn, PageOf, BlockType, RefLists, Chunks, Lives;
    assert FreeListOk(h, q) && PageRefOk(h, q) && PageRefOk(h, r);
    BlockStepRef(h, h', r, x, q, FLIST);
    BlockStepRef(h, h', r, x, q, PAB);
    BlockStepRef(h, h', r, x, q, NFREE);
    BlockOwner(h, r, x);
    RefWordsInHeap(h, r);
    SlotArithmetic(r);
    forall a | a in h.flist[q] ensures Same(h, h', a + 0) {
      BlockOwner(h, q, a);
      BlockStepSame(h, h', r, x, a);
    }
    forall a | BlockOn(a, PageOfRef(h, q), h.role[q].k) ensures a != x {
      BlockOwner(h, q, a);
    }
    FreeListFrame(h, h', q);
  }

  // ------------------------------------------------------------ taking a block

  /** The block at the head of the free list of `r` goes to the caller. */
  ghost function Take(h: Heap, r: int): Heap
    requires Inv(h) && r in h.role && h.role[r].InUse? && r in h.flist && h.flist[r] != []
  {
    RefWordsInHeap(h, r);
    h.(m := h.m[r + FLIST := Word(h, h.flist[r][0])][r + NFREE := Word(h, r + NFREE) - 1],
       flist := h.flist[r := h.flist[r][1..]],
       live := h.live[h.flist[r][0] := Small(r)])
  }

  lemma TakeIsBlockStep(h: Heap, r: int)
    requires Inv(h) && r in h.role && h.role[r].InUse? && r in h.flist && h.flist[r] != []
    ensures BlockStep(h, Take(h, r), r, h.flist[r][0])
  {
    hide BlockOn, PageOf, BlockType;
    RefWordsInHeap(h, r);
    assert FreeListOk(h, r);
    assert h.flist[r][0] in h.flist[r];
  }

  /** The rest of the page's free blocks stay listed. */
  lemma TakeFreeList(h: Heap, r: int)
    requires Inv(h) && r in h.role && h.role[r].InUse? && r in h.flist && h.flist[r] != []
    ensures FreeListOk(Take(h, r), r)
  {
    hide BlockOn, PageOf, BlockType, RefLists, Chunks, Lives;
    var h', s := Take(h, r), h.flist[r];
    TakeIsBlockStep(h, r);
    assert FreeListOk(h, r) && PageRefOk(h, r);
    RefWordsInHeap(h, r);
    SlotArithmetic(r);
    ChainPop(h.m, Word(h, r + FLIST), s, 0);
    forall a | a in s[1..] ensures Same(h, h', a + 0) {
      BlockOwner(h, r, a);
    }
    ChainSame(h, h', h.m[s[0] + 0], s[1..], 0);
    BlockStepRef(h, h', r, s[0], r, PAB);
  }

  lemma TakeInv(h: Heap, r: int)
    requires Inv(h) && r in h.role && h.role[r].InUse? && r in h.flist && h.flist[r] != []
    ensures Inv(Take(h, r))
  {
    hide BlockOn, PageOf, BlockType;
    var h', x := Take(h, r), h.flist[r][0];
    TakeIsBlockStep(h, r);
    BlockStepRefs(h, h', r, x);
    BlockStepChunks(h, h', r, x);
    forall q | q in h'.role && h'.role[q].InUse? ensures FreeListOk(h', q) {
      if q == r { TakeFreeList(h, r); } else { BlockStepOtherLists(h, h', r, x, q); }
    }
    forall y | y in h'.live ensures LiveOk(h', y) {
      if y == x {
        BlockStepRef(h, h', r, x, r, PAB);
      } else {
        BlockStepLive(h, h', r, x, y);
      }
    }
  }

  // ------------------------------------------------------------ putting it back

  const DEADBEEF := 0xdead_beef_dead_beef

  /** `n` words from `a` on overwritten with the dead pattern. */
  ghost function Deadbeef(m: seq<int>, a: int, n: int): (t: seq<int>)
    ensures |t| == |m|
  {
    seq(|m|, i requires 0 <= i < |m| => if a <= i < a + n then DEADBEEF else m[i])
  }

  /** A small block is overwritten and becomes the head of its page's free list. */
  ghost function Put(h: Heap, x: int): Heap
    requires Inv(h) && x in h.live && h.live[x].Small?
  {
    assert LiveOk(h, x);
    var r := h.live[x].ref;
    RefWordsInHeap(h, r);
    LiveWordInMemory(h, x);
    h.(m := Deadbeef(h.m, x, BlockWords(h.role[r].k))[x := Word(h, r + FLIST)]
              [r + FLIST := x][r + NFREE := Word(h, r + NFREE) + 1],
       flist := h.flist[r := [x] + h.flist[r]],
       live := h.live - {x})
  }

  lemma LiveWordInMemory(h: Heap, x: int)
    requires Inv(h) && x in h.live && h.live[x].Small?
    ensures h.live[x].ref in h.flist && 0 < x < |h.m|
  {
    hide BlockOn, PageOf, BlockType;
    assert LiveOk(h, x);
    assert FreeListOk(h, h.live[x].ref) && PageRefOk(h, h.live[x].ref);
    BlockOwner(h, h.live[x].ref, x);
    assert Page(x) in h.owner;
  }

  lemma PutIsBlockStep(h: Heap, x: int)
    requires Inv(h) && x in h.live && h.live[x].Small?
    ensures BlockStep(h, Put(h, x), h.live[x].ref, x)
  {
    hide BlockOn, PageOf, BlockType;
    assert LiveOk(h, x);
    LiveWordInMemory(h, x);
    RefWordsInHeap(h, h.live[x].ref);
  }

  lemma PutFreeList(h: Heap, x: int)
    requires Inv(h) && x in h.live && h.live[x].Small?
    ensures FreeListOk(Put(h, x), h.live[x].ref)
  {
    hide BlockOn, PageOf, BlockType, RefLists, Chunks;
    var h', r := Put(h, x), h.live[x].ref;
    assert LiveOk(h, x);
    assert FreeListOk(h, r) && PageRefOk(h, r);
    PutIsBlockStep(h, x);
    RefWordsInHeap(h, r);
    SlotArithmetic(r);
    LiveWordInMemory(h, x);
    BlockOwner(h, r, x);
    forall a | a in h.flist[r] ensures Same(h, h', a + 0) {
      BlockOwner(h, r, a);
      SameRefApart(h, x, a, r, a);
    }
    forall a | a in h.flist[r] ensures h'.m[a + 0] == h.m[a + 0] {
      assert Same(h, h', a + 0);
    }
    ChainPush(h.m, h'.m, Word(h, r + FLIST), h.flist[r], 0, x);
    BlockStepRef(h, h', r, x, r, PAB);
  }

  lemma PutInv(h: Heap, x: int)
    requires Inv(h) && x in h.live && h.live[x].Small?
    ensures Inv(Put(h, x))
  {
    hide BlockOn, PageOf, BlockType;
    var h', r := Put(h, x), h.live[x].ref;
    PutIsBlockStep(h, x);
    BlockStepRefs(h, h', r, x);
    BlockStepChunks(h, h', r, x);
    forall q | q in h'.role && h'.role[q].InUse? ensures FreeListOk(h', q) {
      if q == r { PutFreeList(h, x); } else { BlockStepOtherLists(h, h', r, x, q); }
    }
    forall y | y in h'.live ensures LiveOk(h', y) {
      BlockStepLive(h, h', r, x, y);
    }
  }
}
