/** The steps that put a page to use: one filled with fresh pagerefs, and one cut into blocks
    and threaded into a free list. Each keeps the invariant. */
module PageSteps {
  import opened Sequences
  import opened PageLayout
  import opened Chains
  import opened HeapState
  import opened HeapFrames
  import opened HeapSafety
  import opened BlockSteps
  import opened RefSteps

  /** There is memory for `n` more pages below the address limit. */
  predicate CanGrow(h: Heap, n: int) {
    0 < n && h.hi + n <= PAGE_LIMIT && PAGE_WORDS * (h.hi + n) <= |h.m|
  }

  /** The page of `w`, if it is a heap page at all, is not `p`, and `w` is no word of slot `r`. */
  ghost predicate Elsewhere(r: int, p: int, w: int) {
    Page(w) != p && !(r <= w < r + REF_WORDS)
  }

  // ------------------------------------------------------------ installing a page

  /** The free list threaded through page `p`: each block points to the one before it. */
  ghost function ThreadedPage(m: seq<int>, p: int, k: nat): (t: seq<int>)
    requires k < NSIZES
    ensures |t| == |m|
  {
    seq(|m|, i requires 0 <= i < |m| =>
      if BlockOn(i, p, k) then (if i == PAGE_WORDS * p then 0 else i - BlockWords(k)) else m[i])
  }

  /** All blocks of the page, from last to first. */
  ghost function FullList(p: int, k: nat): seq<int>
    requires k < NSIZES
  {
    seq(BlocksPerPage(k), j => NthBlock(p, k, BlocksPerPage(k) - 1 - j))
  }

  /** `p` is the page to install under held pageref `r`: its own, or a newly obtained one. */
  ghost predicate Installable(h: Heap, r: int, p: int) {
    && r in h.role && h.role[r] == Held
    && if PageOfRef(h, r) == 0 then p == h.hi && CanGrow(h, 1) else p == PageOfRef(h, r)
  }

  ghost function Install(h: Heap, r: int, p: int, k: nat): Heap
    requires Inv(h) && k < NSIZES && Installable(h, r, p)
  {
    RefWordsInHeap(h, r);
    var n := BlocksPerPage(k);
    h.(m := ThreadedPage(h.m, p, k)[r + NEXT := h.sizebases[k]][r + FLIST := NthBlock(p, k, n - 1)]
              [r + PAB := MkPab(PAGE_BYTES * p, k)][r + NFREE := n],
       hi := if p == h.hi then h.hi + 1 else h.hi,
       sizebases := h.sizebases[k := r], inUse := h.inUse[k := [r] + h.inUse[k]],
       role := h.role[r := InUse(k)], flist := h.flist[r := FullList(p, k)],
       owner := h.owner[p := Sub(r)])
  }

  /** Everything that installing changes, but for the memory words. */
  lemma InstallFields(h: Heap, r: int, p: int, k: nat)
    requires Inv(h) && k < NSIZES && Installable(h, r, p)
    ensures var h' := Install(h, r, p, k);
            && |h'.m| == |h.m| && h'.lo == h.lo && h'.hi == (if p == h.hi then h.hi + 1 else h.hi)
            && h'.freshHead == h.freshHead && h'.freshRefs == h.freshRefs
            && h'.recycledHead == h.recycledHead && h'.recycledRefs == h.recycledRefs
            && h'.sizebases == h.sizebases[k := r] && h'.inUse == h.inUse[k := [r] + h.inUse[k]]
            && h'.bigHead == h.bigHead && h'.bigFree == h.bigFree && h'.live == h.live
            && h'.role == h.role[r := InUse(k)] && h'.flist == h.flist[r := FullList(p, k)]
            && h'.owner == h.owner[p := Sub(r)]
  {
    hide RefLists, FreeLists, Chunks, Lives, PageRefs, FullList, PageOf, BlockType, MkPab, NthBlock;
  }

  /** No other pageref, chunk or live block has anything on the page to install. */
  lemma InstallableFree(h: Heap, r: int, p: int)
    requires Inv(h) && Installable(h, r, p)
    ensures h.lo <= p <= h.hi && p < PAGE_LIMIT && PAGE_WORDS * p + PAGE_WORDS <= |h.m| && Page(r) != p
    ensures p in h.owner ==> h.owner[p] == Sub(r)
    ensures forall q :: q in h.owner && h.owner[q] == Sub(r) ==> q == p
  {
    hide BlockOn, PageOf, BlockType, RefLists, FreeLists, Chunks, Lives;
    assert PageRefOk(h, r);
    RefWordsInHeap(h, r);
  }

  lemma ThreadedElsewhere(m: seq<int>, p: int, k: nat, w: int)
    requires k < NSIZES && 0 <= w < |m| && Page(w) != p
    ensures ThreadedPage(m, p, k)[w] == m[w]
  {
    PageBounds(p, w);
  }

  lemma InstallSame(h: Heap, r: int, p: int, k: nat, w: int)
    requires Inv(h) && k < NSIZES && Installable(h, r, p) && Elsewhere(r, p, w)
    ensures Same(h, Install(h, r, p, k), w)
  {
    hide PageOf, BlockType, MkPab, NthBlock, ThreadedPage, RefLists, FreeLists, Chunks, Lives, PageRefs;
    RefWordsInHeap(h, r);
    if 0 <= w < |h.m| { ThreadedElsewhere(h.m, p, k, w); }
  }

  lemma InstallOwn(h: Heap, r: int, p: int, k: nat)
    requires Inv(h) && k < NSIZES && Installable(h, r, p)
    ensures var h' := Install(h, r, p, k);
            && Word(h', r + NEXT) == h.sizebases[k] && Word(h', r + FLIST) == NthBlock(p, k, BlocksPerPage(k) - 1)
            && Word(h', r + NFREE) == BlocksPerPage(k)
            && PageOfRef(h', r) == p && BlockType(Word(h', r + PAB)) == k
  {
    hide BlockOn, NthBlock, PageOf, PageAddr, MkPab, BlockType, RefLists, FreeLists, Chunks, Lives, PageRefs;
    RefWordsInHeap(h, r);
    InstallableFree(h, r, p);
    PageOfPacked(p, k);
  }

  lemma InstallShape(h: Heap, r: int, p: int, k: nat)
    requires Inv(h) && k < NSIZES && Installable(h, r, p)
    ensures Shape(Install(h, r, p, k))
  {
    hide PageOf, RefLists, FreeLists, Chunks, Lives, PageRefs, Install, Page;
    InstallFields(h, r, p, k);
    InstallableFree(h, r, p);
  }

  lemma SlotGap(r: int, q: int)
    requires r % REF_WORDS == 0 && q % REF_WORDS == 0 && r != q
    ensures q + REF_WORDS <= r || r + REF_WORDS <= q
  {
  }

  lemma InstallRefWord(h: Heap, r: int, p: int, k: nat, q: int, i: int)
    requires Inv(h) && k < NSIZES && Installable(h, r, p) && q in h.role && q != r && 0 <= i < REF_WORDS
    ensures Same(h, Install(h, r, p, k), q + i)
  {
    hide PageOf, RefLists, FreeLists, Chunks, Lives, PageRefs, Install, Page;
    InstallableFree(h, r, p);
    SlotArithmetic(q);
    SlotGap(r, q);
    assert i == NEXT || i == FLIST || i == PAB || i == NFREE;
    InstallSame(h, r, p, k, q + i);
  }

  lemma InstallRefLists(h: Heap, r: int, p: int, k: nat)
    requires Inv(h) && k < NSIZES && Installable(h, r, p) && Shape(Install(h, r, p, k))
    ensures RefLists(Install(h, r, p, k))
  {
    hide PageOf, FreeLists, Chunks, Lives, PageRefs, Install, Page;
    var h' := Install(h, r, p, k);
    InstallFields(h, r, p, k);
    forall q | q in h.role && q != r ensures Same(h, h', q + NEXT) {
      InstallRefWord(h, r, p, k, q, NEXT);
    }
    ChainSame(h, h', h.freshHead, h.freshRefs, NEXT);
    ListsOfOtherRoles(h.role, h'.role, h.freshRefs, Fresh, r);
    ChainSame(h, h', h.recycledHead, h.recycledRefs, NEXT);
    ListsOfOtherRoles(h.role, h'.role, h.recycledRefs, Recycled, r);
    forall j: nat | j < NSIZES ensures SizeList(h', j) {
      InstallSizeList(h, r, p, k, j);
    }
  }

  lemma InstallSizeList(h: Heap, r: int, p: int, k: nat, j: nat)
    requires Inv(h) && k < NSIZES && j < NSIZES && Installable(h, r, p) && Shape(Install(h, r, p, k))
    ensures SizeList(Install(h, r, p, k), j)
  {
    hide PageOf, FreeLists, Chunks, Lives, PageRefs, Install, Page;
    var h', s := Install(h, r, p, k), h.inUse[j];
    InstallFields(h, r, p, k);
    assert SizeList(h, j);
    forall q | q in s ensures Same(h, h', q + NEXT) {
      InstallRefWord(h, r, p, k, q, NEXT);
    }
    if j == k {
      RefWordsInHeap(h, r);
      InstallOwn(h, r, p, k);
      forall q | q in s ensures h'.m[q + NEXT] == h.m[q + NEXT] {
        RefWordsInHeap(h, q);
        assert Same(h, h', q + NEXT);
      }
      ChainPush(h.m, h'.m, h.sizebases[k], s, NEXT, r);
    } else {
      ListsOfOtherRoles(h.role, h'.role, s, InUse(j), r);
      ChainSame(h, h', h.sizebases[j], s, NEXT);
    }
  }

  lemma InstallPageRefs(h: Heap, r: int, p: int, k: nat)
    requires Inv(h) && k < NSIZES && Installable(h, r, p)
    ensures PageRefs(Install(h, r, p, k))
  {
    hide PageOf, BlockType, FreeLists, Chunks, Lives, RefLists, Install, Page;
    var h' := Install(h, r, p, k);
    InstallFields(h, r, p, k);
    InstallableFree(h, r, p);
    InstallOwn(h, r, p, k);
    forall q | q in h'.role ensures PageRefOk(h', q) {
      if q != r {
        assert PageRefOk(h, q);
        InstallRefWord(h, r, p, k, q, PAB);
      }
    }
    forall b | b in h'.owner && h'.owner[b].Sub?
      ensures h'.owner[b].ref in h'.role && h'.role[h'.owner[b].ref] != Fresh && PageOfRef(h', h'.owner[b].ref) == b
    {
      if b != p {
        var q := h.owner[b].ref;
        assert PageOfRef(h, q) == b;
        InstallRefWord(h, r, p, k, q, PAB);
      }
    }
  }

  lemma InstallChunkPage(h: Heap, r: int, p: int, k: nat, b: int)
    requires Inv(h) && k < NSIZES && Installable(h, r, p) && b in h.owner && h.owner[b].Chunk?
    ensures SameChunkPage(h, Install(h, r, p, k), b)
  {
    hide PageOf, BlockType, FreeLists, Lives, RefLists, Install;
    InstallFields(h, r, p, k);
    var c := h.owner[b].hdr;
    assert ChunkPageOk(h, b, c);
    ChunkHeader(h, c);
    InstallableFree(h, r, p);
    RefWordsInHeap(h, r);
    SlotArithmetic(r);
    PageBounds(Page(c), c);
    PageBounds(Page(c), c + 1);
    PageBounds(Page(r), c);
    PageBounds(Page(r), c + 1);
    InstallSame(h, r, p, k, c);
    InstallSame(h, r, p, k, c + 1);
  }

  lemma InstallChunks(h: Heap, r: int, p: int, k: nat)
    requires Inv(h) && k < NSIZES && Installable(h, r, p) && Shape(Install(h, r, p, k))
    ensures Chunks(Install(h, r, p, k))
  {
    hide PageOf, BlockType, FreeLists, Lives, RefLists, Install, Page;
    var h' := Install(h, r, p, k);
    InstallFields(h, r, p, k);
    InstallableFree(h, r, p);
    forall b | b in h.owner && h.owner[b].Chunk? ensures SameChunkPage(h, h', b) {
      InstallChunkPage(h, r, p, k, b);
    }
    ChunksFrame(h, h');
  }

  lemma InstallLive(h: Heap, r: int, p: int, k: nat, x: int)
    requires Inv(h) && k < NSIZES && Installable(h, r, p) && x in h.live
    ensures LiveOk(Install(h, r, p, k), x)
  {
    hide BlockOn, PageOf, BlockType, FreeLists, RefLists, Chunks, PageRefs, Install;
    InstallFields(h, r, p, k);
    assert LiveOk(h, x);
    match h.live[x]
    case Small(q) =>
      NoLiveBlocksUnlessInUse(h, r, x);
      InstallRefWord(h, r, p, k, q, PAB);
      LiveSmallFrame(h, Install(h, r, p, k), x, q);
    case Big =>
      InstallLiveBig(h, r, p, k, x);
  }

  lemma InstallLiveBig(h: Heap, r: int, p: int, k: nat, x: int)
    requires Inv(h) && k < NSIZES && Installable(h, r, p) && x in h.live && h.live[x] == Big
    ensures LiveOk(Install(h, r, p, k), x)
  {
    hide BlockOn, PageOf, BlockType, FreeLists, RefLists, Chunks, PageRefs, Install, Page;
    InstallFields(h, r, p, k);
    assert LiveOk(h, x);
    InstallableFree(h, r, p);
    ChunkHeader(h, x - 1);
    InstallChunkPage(h, r, p, k, Page(x - 1));
    LiveBigFrame(h, Install(h, r, p, k), x);
  }

  lemma InstallOtherList(h: Heap, r: int, p: int, k: nat, q: int)
    requires Inv(h) && k < NSIZES && Installable(h, r, p) && q in h.role && h.role[q].InUse?
    ensures FreeListOk(Install(h, r, p, k), q)
  {
    hide BlockOn, PageOf, BlockType, RefLists, Chunks, Lives, Install;
    var h' := Install(h, r, p, k);
    InstallFields(h, r, p, k);
    assert FreeListOk(h, q) && PageRefOk(h, q);
    InstallRefWord(h, r, p, k, q, FLIST);
    InstallRefWord(h, r, p, k, q, PAB);
    InstallRefWord(h, r, p, k, q, NFREE);
    InstallableFree(h, r, p);
    forall a | a in h.flist[q] ensures Same(h, h', a + 0) {
      BlockOwner(h, q, a);
      RefWordsInHeap(h, r);
      SlotArithmetic(r);
      PageBounds(Page(r), a);
      InstallSame(h, r, p, k, a);
    }
    FreeListFrame(h, h', q);
  }

  lemma FullListDistinct(p: int, k: nat)
    requires k < NSIZES
    ensures Distinct(FullList(p, k))
  {
    hide BlockOn, NthBlock;
    var s, n := FullList(p, k), BlocksPerPage(k);
    forall i, j | 0 <= i < j < n ensures s[i] != s[j] {
      NthBlockOn(p, k, n - 1 - i);
      NthBlockOn(p, k, n - 1 - j);
    }
  }

  /** The threaded page is a free list of all its blocks. */
  lemma ThreadedPageIsList(h: Heap, r: int, p: int, k: nat)
    requires Inv(h) && k < NSIZES && Installable(h, r, p)
    ensures Chain(Install(h, r, p, k).m, NthBlock(p, k, BlocksPerPage(k) - 1), FullList(p, k), 0)
  {
    hide BlockOn, NthBlock, PageOf, BlockType, MkPab, Inv, FullList, Install;
    var m', s, n := Install(h, r, p, k).m, FullList(p, k), BlocksPerPage(k);
    FullListHead(p, k);
    forall i | 0 <= i < n ensures s[i] != 0 && 0 <= s[i] + 0 < |m'| && m'[s[i]] == At(s, i + 1) {
      ThreadedCell(h, r, p, k, i);
    }
    assert InMemory(m', s, 0);
    forall i | 0 <= i < n ensures Linked(m', s, 0, i) {
      ThreadedCell(h, r, p, k, i);
    }
  }

  lemma FullListHead(p: int, k: nat)
    requires k < NSIZES
    ensures |FullList(p, k)| == BlocksPerPage(k) && FullList(p, k)[0] == NthBlock(p, k, BlocksPerPage(k) - 1)
  {
    hide NthBlock;
  }

  lemma ThreadedCell(h: Heap, r: int, p: int, k: nat, i: nat)
    requires Inv(h) && k < NSIZES && Installable(h, r, p) && i < BlocksPerPage(k)
    ensures var s, m' := FullList(p, k), Install(h, r, p, k).m;
            |s| == BlocksPerPage(k) && s[i] != 0 && 0 <= s[i] < |m'| && m'[s[i]] == At(s, i + 1)
  {
    hide BlockOn, NthBlock, PageOf, BlockType, MkPab, RefLists, FreeLists, Chunks, Lives, PageRefs;
    var j := BlocksPerPage(k) - 1 - i;
    var a := NthBlock(p, k, j);
    InstallableFree(h, r, p);
    RefWordsInHeap(h, r);
    SlotArithmetic(r);
    NthBlockOn(p, k, j);
    BlockStaysOnPage(a, p, k);
    PageBounds(p, a);
    PageBounds(Page(r), a);
    ThreadedWord(h.m, p, k, j);
    assert !(r <= a < r + REF_WORDS);
  }

  lemma ThreadedWord(m: seq<int>, p: int, k: nat, j: nat)
    requires k < NSIZES && j < BlocksPerPage(k) && 0 < p && PAGE_WORDS * p + PAGE_WORDS <= |m|
    ensures var a := NthBlock(p, k, j);
            && 0 <= a < |m|
            && ThreadedPage(m, p, k)[a] == if j == 0 then 0 else NthBlock(p, k, j - 1)
  {
    hide Scale, Unscale;
    NthBlockOn(p, k, j);
    BlockStaysOnPage(NthBlock(p, k, j), p, k);
    ScaleSteps(k, 0, j);
    ScaleSteps(k, 0, j - 1);
  }

  lemma InstallOwnList(h: Heap, r: int, p: int, k: nat)
    requires Inv(h) && k < NSIZES && Installable(h, r, p)
    ensures FreeListOk(Install(h, r, p, k), r)
  {
    hide BlockOn, NthBlock, PageOf, BlockType, MkPab, RefLists, Chunks, Lives, ThreadedPage, PageRefs;
    var h', s, n := Install(h, r, p, k), FullList(p, k), BlocksPerPage(k);
    InstallOwn(h, r, p, k);
    ThreadedPageIsList(h, r, p, k);
    FullListDistinct(p, k);
    forall a ensures a in s <==> BlockOn(a, p, k) && a !in h.live {
      if BlockOn(a, p, k) {
        BlockIndexInRange(a, p, k);
        NthOfIndex(a, p, k);
        assert s[n - 1 - BlockIndex(a, p, k)] == a;
        InstallPageNotLive(h, r, p, k, a);
      }
      if a in s {
        var i :| 0 <= i < n && s[i] == a;
        NthBlockOn(p, k, n - 1 - i);
        InstallPageNotLive(h, r, p, k, a);
      }
    }
  }

  lemma NthOfIndex(a: int, p: int, k: nat)
    requires k < NSIZES && BlockOn(a, p, k)
    ensures NthBlock(p, k, BlockIndex(a, p, k)) == a
  {
  }

  lemma InstallPageNotLive(h: Heap, r: int, p: int, k: nat, a: int)
    requires Inv(h) && k < NSIZES && Installable(h, r, p) && BlockOn(a, p, k)
    ensures a !in h.live
  {
    hide PageOf, BlockType, RefLists, FreeLists, Chunks;
    InstallableFree(h, r, p);
    PageBounds(p, a);
    if a in h.live {
      assert LiveOk(h, a);
      NoLiveBlocksUnlessInUse(h, r, a);
      match h.live[a]
      case Small(q) => assert PageRefOk(h, q); BlockOwner(h, q, a);
      case Big => ChunkHeader(h, a - 1);
    }
  }

  lemma InstallInv(h: Heap, r: int, p: int, k: nat)
    requires Inv(h) && k < NSIZES && Installable(h, r, p)
    ensures Inv(Install(h, r, p, k))
  {
    hide BlockOn, NthBlock, PageOf, BlockType, MkPab, RefLists, Chunks, ThreadedPage;
    var h' := Install(h, r, p, k);
    InstallShape(h, r, p, k);
    InstallRefLists(h, r, p, k);
    InstallPageRefs(h, r, p, k);
    InstallChunks(h, r, p, k);
    forall q | q in h'.role && h'.role[q].InUse? ensures FreeListOk(h', q) {
      if q == r { InstallOwnList(h, r, p, k); } else { InstallOtherList(h, r, p, k, q); }
    }
    forall x | x in h'.live ensures LiveOk(h', x) {
      InstallLive(h, r, p, k, x);
    }
  }

  lemma ThreadedCommutes(m: seq<int>, p: int, k: nat, w: int, v: int)
    requires k < NSIZES && 0 <= w < |m| && Page(w) != p
    ensures ThreadedPage(m[w := v], p, k) == ThreadedPage(m, p, k)[w := v]
  {
    hide BlockOn, BlockWords;
    ThreadedElsewhere(m[w := v], p, k, w);
  }

  /** The order in which the program fills in the pageref and threads the page is immaterial. */
  lemma InstallStores(h: Heap, r: int, p: int, k: nat)
    requires Inv(h) && k < NSIZES && Installable(h, r, p)
    ensures 0 <= r && r + NFREE < |h.m|
    ensures Install(h, r, p, k).m ==
            ThreadedPage(h.m[r + PAB := MkPab(PAGE_BYTES * p, k)][r + NFREE := BlocksPerPage(k)], p, k)
              [r + FLIST := NthBlock(p, k, BlocksPerPage(k) - 1)][r + NEXT := h.sizebases[k]]
  {
    hide ThreadedPage, RefLists, PageRefs, FreeLists, Chunks, Lives, MkPab, NthBlock, BlocksPerPage, PageOf;
    RefWordsInHeap(h, r);
    SlotArithmetic(r);
    InstallableFree(h, r, p);
    var m1 := h.m[r + PAB := MkPab(PAGE_BYTES * p, k)];
    ThreadedCommutes(h.m, p, k, r + PAB, MkPab(PAGE_BYTES * p, k));
    ThreadedCommutes(m1, p, k, r + NFREE, BlocksPerPage(k));
  }
}
