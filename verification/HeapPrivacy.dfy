/** No step of the allocator changes a word of a block that stays live, and between calls
    the state settles again. */
module HeapPrivacy {
  import opened PageLayout
  import opened Chains
  import opened HeapState
  import opened HeapFrames
  import opened HeapSafety
  import opened BlockSteps
  import opened RefSteps
  import opened RefPageStep
  import opened PageSteps
  import opened ChunkSteps
  import opened BlockCount

  /** `x` is live before and after, with the same size and the same contents. */
  ghost predicate KeepsBlock(h: Heap, h': Heap, x: int) {
    && x in h.live && x in h'.live && h'.live[x] == h.live[x]
    && Extent(h', x) == Extent(h, x)
    && forall w :: Within(h, x, w) ==> Same(h, h', w)
  }

  /** Every block live before is kept, except `gone`. */
  ghost predicate KeepsAllBut(h: Heap, h': Heap, gone: int) {
    forall x :: x in h.live && x != gone ==> KeepsBlock(h, h', x)
  }

  lemma KeepsChain(h: Heap, h1: Heap, h2: Heap, gone: int)
    requires KeepsAllBut(h, h1, gone) && KeepsAllBut(h1, h2, gone)
    ensures KeepsAllBut(h, h2, gone)
  {
    forall x | x in h.live && x != gone ensures KeepsBlock(h, h2, x) {
      assert KeepsBlock(h, h1, x) && KeepsBlock(h1, h2, x);
      forall w | Within(h, x, w) ensures Same(h, h2, w) {
        assert Within(h1, x, w) && Same(h, h1, w) && Same(h1, h2, w);
      }
    }
  }

  /** A live block is kept by a step that leaves its words, its header and its pageref's role. */
  lemma KeepsIf(h: Heap, h': Heap, x: int)
    requires Inv(h) && x in h.live && x in h'.live && h'.live[x] == h.live[x]
    requires h.live[x].Small? ==> h.live[x].ref in h.role && h.live[x].ref in h'.role && h'.role[h.live[x].ref] == h.role[h.live[x].ref]
    requires h.live[x] == Big ==> Same(h, h', x - 1)
    requires forall w :: Within(h, x, w) ==> Same(h, h', w)
    ensures KeepsBlock(h, h', x)
  {
    hide BlockOn, PageOf, RefLists, PageRefs, FreeLists, Chunks;
    assert LiveOk(h, x);
  }

  /** The header of a live big block, seen as a word of its chunk. */
  lemma BigHeader(h: Heap, x: int)
    requires Inv(h) && x in h.live && h.live[x] == Big
    ensures IsChunk(h, x - 1) && Page(x - 1) in h.owner && h.owner[Page(x - 1)] == Chunk(x - 1)
    ensures PAGE_WORDS * h.lo <= x - 1 < PAGE_WORDS * h.hi && x - 1 !in h.bigFree
  {
    hide BlockOn, PageOf, RefLists, PageRefs, FreeLists;
    assert LiveOk(h, x);
    ChunkHeader(h, x - 1);
  }

  lemma RefStepKeeps(h: Heap, h': Heap, r: int)
    requires Inv(h) && RefStep(h, h', r) && forall x :: x in h.live ==> h.live[x] != Small(r)
    ensures KeepsAllBut(h, h', 0)
  {
    hide BlockOn, PageOf, RefLists, PageRefs, FreeLists, Chunks;
    forall x | x in h.live ensures KeepsBlock(h, h', x) {
      assert LiveOk(h, x);
      if h.live[x] == Big {
        BigHeader(h, x);
        NextWordsAreLinks(h, x - 1);
      }
      forall w | Within(h, x, w) ensures Same(h, h', w) {
        LiveWordOwner(h, x, w);
        NextWordsAreLinks(h, w);
      }
      KeepsIf(h, h', x);
    }
  }

  lemma NewRefPageKeeps(h: Heap)
    requires Inv(h) && CanGrow(h, 1)
    ensures KeepsAllBut(h, NewRefPage(h), 0)
  {
    hide BlockOn, PageOf, RefLists, PageRefs, FreeLists, Chunks, NewRefPage;
    var h' := NewRefPage(h);
    NewRefPageShape(h);
    NewRefPageRoots(h);
    forall x | x in h.live ensures KeepsBlock(h, h', x) {
      assert LiveOk(h, x);
      if h.live[x] == Big {
        BigHeader(h, x);
        OldWordSame(h, x - 1);
      }
      forall w | Within(h, x, w) ensures Same(h, h', w) {
        LiveWordOwner(h, x, w);
        OldWordSame(h, w);
      }
      KeepsIf(h, h', x);
    }
  }

  lemma InstallKeeps(h: Heap, r: int, p: int, k: nat)
    requires Inv(h) && k < NSIZES && Installable(h, r, p)
    ensures KeepsAllBut(h, Install(h, r, p, k), 0)
  {
    hide BlockOn, PageOf, NthBlock, MkPab, ThreadedPage, RefLists, PageRefs, FreeLists, Chunks;
    forall x | x in h.live ensures KeepsBlock(h, Install(h, r, p, k), x) {
      InstallKeepsOne(h, r, p, k, x);
    }
  }

  lemma InstallKeepsOne(h: Heap, r: int, p: int, k: nat, x: int)
    requires Inv(h) && k < NSIZES && Installable(h, r, p) && x in h.live
    ensures KeepsBlock(h, Install(h, r, p, k), x)
  {
    hide BlockOn, PageOf, NthBlock, MkPab, ThreadedPage, RefLists, PageRefs, FreeLists, Chunks;
    var h' := Install(h, r, p, k);
    assert LiveOk(h, x);
    NoLiveBlocksUnlessInUse(h, r, x);
    InstallableFree(h, r, p);
    if h.live[x] == Big {
      BigHeader(h, x);
      InstallChunkPage(h, r, p, k, Page(x - 1));
    }
    forall w | Within(h, x, w) ensures Same(h, h', w) {
      LiveWordOwner(h, x, w);
      RefSlotApart(h, x, w, r);
      InstallSame(h, r, p, k, w);
    }
    KeepsIf(h, h', x);
  }

  lemma BlockStepKeeps(h: Heap, h': Heap, r: int, x: int)
    requires Inv(h) && BlockStep(h, h', r, x) && (x in h.live ==> h.live[x] == Small(r))
    ensures KeepsAllBut(h, h', x)
  {
    hide BlockOn, PageOf, RefLists, FreeLists, Chunks, PageRefs;
    forall y | y in h.live && y != x ensures KeepsBlock(h, h', y) {
      BlockStepKeepsOne(h, h', r, x, y);
    }
  }

  lemma BlockStepKeepsOne(h: Heap, h': Heap, r: int, x: int, y: int)
    requires Inv(h) && BlockStep(h, h', r, x) && y in h.live && y != x
    ensures KeepsBlock(h, h', y)
  {
    hide BlockOn, PageOf, BlockType, RefLists, FreeLists, Chunks, PageRefs;
    assert LiveOk(h, y);
    if h.live[y] == Big {
      BigHeader(h, y);
      BlockStepChunkPage(h, h', r, x, Page(y - 1));
    }
    forall w | Within(h, y, w) ensures Same(h, h', w) {
      RefSlotApart(h, y, w, r);
      BlockWordApart(h, r, x, y, w);
    }
    KeepsIf(h, h', y);
  }

  /** A word of a live block is in no other block of any in-use page, live or free. */
  lemma BlockWordApart(h: Heap, r: int, x: int, y: int, w: int)
    requires Inv(h) && y in h.live && Within(h, y, w) && y != x
    requires r in h.role && h.role[r].InUse? && h.role[r].k < NSIZES && BlockOn(x, PageOfRef(h, r), h.role[r].k)
    ensures !(x <= w < x + BlockWords(h.role[r].k))
  {
    hide BlockOn, PageOf, BlockType, RefLists, Chunks, PageRefs;
    assert FreeListOk(h, r);
    if x in h.flist[r] {
      FreeBlockApart(h, y, w, r, x);
    } else if x <= w < x + BlockWords(h.role[r].k) {
      SameOwnerApart(h, r, x, y, w);
    }
  }

  lemma SameOwnerApart(h: Heap, r: int, x: int, y: int, w: int)
    requires Inv(h) && y in h.live && Within(h, y, w) && y != x
    requires r in h.role && h.role[r].InUse? && h.role[r].k < NSIZES && BlockOn(x, PageOfRef(h, r), h.role[r].k)
    ensures !(x <= w < x + BlockWords(h.role[r].k))
  {
    hide BlockOn, PageOf, BlockType, RefLists, Chunks, FreeLists;
    assert LiveOk(h, y) && PageRefOk(h, r);
    if x <= w < x + BlockWords(h.role[r].k) {
      LiveWordOwner(h, y, w);
      BlockStaysOnPage(x, PageOfRef(h, r), h.role[r].k);
      PageBounds(PageOfRef(h, r), w);
      OverlapIsSame(x, y, PageOfRef(h, r), h.role[r].k, w);
    }
  }

  /** A chunk step keeps every live block if it only writes free chunks, headers of free
      chunks, new pages, or the block that goes away. */
  lemma ChunkStepKeeps(h: Heap, h': Heap, gone: int)
    requires Inv(h) && ChunkStep(h, h')
    requires forall x :: x in h.live && h.live[x] == Big && x != gone ==> x in h'.live && h'.live[x] == Big && Same(h, h', x - 1)
    requires forall x, w :: x in h.live && h.live[x] == Big && x != gone && Within(h, x, w) ==> Same(h, h', w)
    ensures KeepsAllBut(h, h', gone)
  {
    hide BlockOn, PageOf, RefLists, PageRefs, FreeLists, Chunks;
    forall x | x in h.live && x != gone ensures KeepsBlock(h, h', x) {
      assert LiveOk(h, x);
      forall w | Within(h, x, w) ensures Same(h, h', w) {
        LiveWordOwner(h, x, w);
        if h.live[x].Small? { assert NotChunkPage(h, Page(w)); }
      }
      KeepsIf(h, h', x);
    }
  }

  lemma CarveSame(h: Heap, i: nat, n: int, w: int)
    requires Inv(h) && i < |h.bigFree| && 1 <= n < Word(h, h.bigFree[i])
    requires var c := h.bigFree[i]; !(c <= w < c + PAGE_WORDS * Word(h, c))
    ensures Same(h, Carve(h, i, n), w)
  {
    hide BlockOn, PageOf, RefLists, PageRefs, FreeLists, Chunks, Lives;
    CarveBounds(h, i, n);
  }

  lemma CarveKeeps(h: Heap, i: nat, n: int)
    requires Inv(h) && i < |h.bigFree| && 1 <= n < Word(h, h.bigFree[i])
    ensures KeepsAllBut(h, Carve(h, i, n), 0)
  {
    hide BlockOn, PageOf, RefLists, PageRefs, FreeLists, Chunks, Lives, IsChunk;
    var h' := Carve(h, i, n);
    CarveIsChunkStep(h, i, n);
    forall x | x in h.live && h.live[x] == Big ensures x in h'.live && h'.live[x] == Big && Same(h, h', x - 1) {
      BigHeader(h, x);
      FreeChunkFacts(h, i);
      CarveChunk(h, i, n, x - 1);
    }
    forall x, w | x in h.live && h.live[x] == Big && Within(h, x, w) ensures Same(h, h', w) {
      FreeChunkFacts(h, i);
      FreeChunkApart(h, x, w, h.bigFree[i]);
      CarveSame(h, i, n, w);
    }
    ChunkStepKeeps(h, h', 0);
  }

  lemma UnlinkKeeps(h: Heap, i: nat)
    requires Inv(h) && i < |h.bigFree|
    ensures KeepsAllBut(h, Unlink(h, i), 0)
  {
    hide BlockOn, PageOf, RefLists, PageRefs, FreeLists, UnlinkMemory, UnlinkHead, Chunks, Lives, IsChunk;
    var h' := Unlink(h, i);
    UnlinkIsChunkStep(h, i);
    forall x | x in h.live && h.live[x] == Big ensures x in h'.live && h'.live[x] == Big && Same(h, h', x - 1) {
      BigHeader(h, x);
      UnlinkKeepsChunk(h, i, x - 1);
    }
    forall x, w | x in h.live && h.live[x] == Big && Within(h, x, w) ensures Same(h, h', w) {
      if i > 0 {
        FreeChunkFacts(h, i - 1);
        FreeChunkApart(h, x, w, h.bigFree[i - 1]);
        OneWordIn(h, h.bigFree[i - 1]);
      }
      UnlinkSame(h, i, w);
    }
    ChunkStepKeeps(h, h', 0);
  }

  lemma OneWordIn(h: Heap, c: int)
    requires IsChunk(h, c)
    ensures c + 1 < c + PAGE_WORDS * Word(h, c)
  {
  }

  lemma NewChunkKeeps(h: Heap, n: int)
    requires Inv(h) && CanGrow(h, n)
    ensures KeepsAllBut(h, NewChunk(h, n), 0)
  {
    hide BlockOn, PageOf, RefLists, PageRefs, FreeLists, Chunks;
    var h' := NewChunk(h, n);
    NewChunkIsChunkStep(h, n);
    NewChunkChunks(h, n);
    forall x | x in h.live && h.live[x] == Big ensures x in h'.live && h'.live[x] == Big && Same(h, h', x - 1) {
      BigHeader(h, x);
    }
    forall x, w | x in h.live && h.live[x] == Big && Within(h, x, w) ensures Same(h, h', w) {
      LiveWordOwner(h, x, w);
    }
    ChunkStepKeeps(h, h', 0);
  }

  lemma ReleaseKeeps(h: Heap, x: int)
    requires Inv(h) && x in h.live && h.live[x] == Big
    ensures KeepsAllBut(h, Release(h, x), x)
  {
    hide BlockOn, PageOf, RefLists, PageRefs, FreeLists, Chunks;
    var h' := Release(h, x);
    ReleaseIsChunkStep(h, x);
    BigHeader(h, x);
    assert Within(h, x, x);
    forall y | y in h.live && h.live[y] == Big && y != x ensures y in h'.live && h'.live[y] == Big && Same(h, h', y - 1) {
      BigHeader(h, y);
    }
    forall y, w | y in h.live && h.live[y] == Big && y != x && Within(h, y, w) ensures Same(h, h', w) {
      LiveBlocksDisjoint(h, x, y, w);
    }
    ChunkStepKeeps(h, h', x);
  }

  // ------------------------------------------------------------ settling

  /** All is settled but for pageref `r`, which the running call is working on. */
  ghost predicate SettledBut(h: Heap, r: int) {
    Inv(h) && PagedFirst(h) && forall q :: q in h.role && q != r ==> h.role[q] != Held && (h.role[q].InUse? ==> PartlyUsed(h, q))
  }

  lemma SettledButFrame(h: Heap, h': Heap, r: int)
    requires SettledBut(h, r) && Inv(h') && PagedFirst(h')
    requires forall q :: q in h'.role && q != r && h'.role[q] != Fresh ==>
               q in h.role && h'.role[q] == h.role[q]
    requires forall q :: q in h.role && q != r && h.role[q].InUse? && q in h.flist ==> q in h'.flist && h'.flist[q] == h.flist[q]
    ensures SettledBut(h', r)
  {
    hide Inv, BlocksPerPage, PagedFirst;
    forall q | q in h'.role && q != r ensures h'.role[q] != Held && (h'.role[q].InUse? ==> PartlyUsed(h', q)) {
      if h'.role[q] != Fresh && h'.role[q].InUse? { assert PartlyUsed(h, q); }
    }
  }

  lemma SettledIsSettledBut(h: Heap, r: int)
    requires Settled(h)
    ensures SettledBut(h, r)
  {
    hide Inv;
  }

  /** Put in front of the recycled list, `r` keeps the pagerefs that have a page in front. */
  ghost predicate MayLead(h: Heap, r: int) {
    Paged(h, r) || forall q :: q in h.recycledRefs ==> !Paged(h, q)
  }

  /** What handing out pageref `r` guarantees. */
  ghost predicate HandsOut(h: Heap, h': Heap, r: int) {
    && r in h'.role && h'.role[r] == Held && SettledBut(h', r) && MayLead(h', r)
    && h'.live == h.live && KeepsAllBut(h, h', 0)
  }

  /** The pageref that is handed out first has a page if any recycled one has. */
  lemma PagedHead(h: Heap, r: int)
    requires PagedFirst(h) && r in h.recycledRefs && Paged(h, r)
    ensures h.recycledRefs != [] && Paged(h, h.recycledRefs[0])
  {
    var j :| 0 <= j < |h.recycledRefs| && h.recycledRefs[j] == r;
  }

  lemma PopRecycledPaged(h: Heap)
    requires PagedFirst(h) && Inv(h) && h.recycledRefs != []
    ensures PagedFirst(PopRecycled(h)) && MayLead(PopRecycled(h), h.recycledRefs[0])
  {
    hide Inv;
    var h', r := PopRecycled(h), h.recycledRefs[0];
    assert h'.m == h.m;
    forall i, j | 0 <= i < j < |h'.recycledRefs| && Paged(h', h'.recycledRefs[j]) ensures Paged(h', h'.recycledRefs[i]) {
      assert h'.recycledRefs[i] == h.recycledRefs[i + 1] && h'.recycledRefs[j] == h.recycledRefs[j + 1];
    }
    forall q | q in h'.recycledRefs && Paged(h', q) ensures Paged(h', r) {
      var j :| 0 <= j < |h'.recycledRefs| && h'.recycledRefs[j] == q;
      assert h.recycledRefs[j + 1] == q && Paged(h, q);
    }
  }

  lemma RefStepPaged(h: Heap, h': Heap, r: int)
    requires Inv(h) && PagedFirst(h) && RefStep(h, h', r) && h'.recycledRefs == h.recycledRefs
    ensures PagedFirst(h')
  {
    hide BlockOn, PageOf, PageRefs, FreeLists, Chunks, Lives, PagedFirst;
    forall q | q in h.recycledRefs ensures Same(h, h', q + PAB) {
      RecycledKnown(h, q);
      RefStepRefWords(h, h', r, q);
    }
    PagedFirstFrame(h, h');
  }

  lemma RecyclePaged(h: Heap, r: int)
    requires Inv(h) && PagedFirst(h) && r in h.role && h.role[r] == Held && MayLead(h, r)
    requires RefStep(h, Recycle(h, r), r)
    ensures PagedFirst(Recycle(h, r))
  {
    hide BlockOn, PageOf, PageRefs, FreeLists, Chunks, Lives;
    var h' := Recycle(h, r);
    RefStepRefWords(h, h', r, r);
    forall q | q in h.recycledRefs ensures Same(h, h', q + PAB) {
      RecycledKnown(h, q);
      RefStepRefWords(h, h', r, q);
    }
    var s := h.recycledRefs;
    assert h'.recycledRefs == [r] + s;
    hide Recycle, Inv;
    forall i, j | 0 <= i < j < |s| + 1 && Paged(h', h'.recycledRefs[j]) ensures Paged(h', h'.recycledRefs[i]) {
      var q := s[j - 1];
      assert h'.recycledRefs[j] == q && q in s;
      if i > 0 {
        var p := s[i - 1];
        assert h'.recycledRefs[i] == p && p in s;
        assert Paged(h, s[j - 1]);
      }
    }
  }

  lemma PopRecycledHandsOut(h: Heap)
    requires Settled(h) && h.recycledRefs != []
    ensures HandsOut(h, PopRecycled(h), h.recycledHead)
  {
    hide BlockOn, PageOf, PageRefs, FreeLists, Chunks;
    var h', r := PopRecycled(h), h.recycledHead;
    PopRecycledInv(h);
    PopRecycledPaged(h);
    assert r == h.recycledRefs[0] && h.recycledRefs[0] in h.recycledRefs;
    forall x | x in h.live ensures h.live[x] != Small(r) { NoLiveBlocksUnlessInUse(h, r, x); }
    RefStepKeeps(h, h', r);
    SettledIsSettledBut(h, r);
    SettledButFrame(h, h', r);
  }

  lemma PopFreshHandsOut(h: Heap)
    requires Settled(h) && h.recycledRefs == [] && h.freshRefs != []
    ensures HandsOut(h, PopFresh(h), h.freshHead)
  {
    hide BlockOn, PageOf, PageRefs, FreeLists, Chunks;
    var h', r := PopFresh(h), h.freshHead;
    PopFreshInv(h);
    assert r == h.freshRefs[0] && h.freshRefs[0] in h.freshRefs;
    forall x | x in h.live ensures h.live[x] != Small(r) { NoLiveBlocksUnlessInUse(h, r, x); }
    RefStepKeeps(h, h', r);
    SettledIsSettledBut(h, r);
    SettledButFrame(h, h', r);
  }

  lemma NewRefPageHandsOut(h: Heap)
    requires Settled(h) && h.recycledRefs == [] && h.freshRefs == [] && CanGrow(h, 1)
    ensures HandsOut(h, NewRefPage(h), PAGE_WORDS * h.hi)
  {
    hide BlockOn, PageOf, RefLists, PageRefs, FreeLists, Chunks, Lives, NewRefPage;
    var h', r := NewRefPage(h), PAGE_WORDS * h.hi;
    NewRefPageInv(h);
    NewRefPageShape(h);
    NewRefPageRoots(h);
    NewRefPageKeeps(h);
    assert h'.recycledRefs == [];
    assert PagedFirst(h') && MayLead(h', r);
    hide PagedFirst, MayLead, Paged;
    assert r !in h.role;
    SettledIsSettledBut(h, r);
    SettledButFrame(h, h', r);
  }

  lemma InstallPaged(h: Heap, r: int, p: int, k: nat)
    requires Inv(h) && PagedFirst(h) && k < NSIZES && Installable(h, r, p)
    ensures PagedFirst(Install(h, r, p, k))
  {
    hide PageOf, RefLists, PageRefs, FreeLists, Chunks, Lives, PagedFirst, ThreadedPage, MkPab;
    InstallableFree(h, r, p);
    InstallFields(h, r, p, k);
    forall q | q in h.recycledRefs ensures Same(h, Install(h, r, p, k), q + PAB) {
      RecycledKnown(h, q);
      InstallRefWord(h, r, p, k, q, PAB);
    }
    PagedFirstFrame(h, Install(h, r, p, k));
  }

  lemma InstallSettles(h: Heap, r: int, p: int, k: nat)
    requires SettledBut(h, r) && k < NSIZES && Installable(h, r, p)
    ensures SettledBut(Install(h, r, p, k), r) && Install(h, r, p, k).live == h.live
    ensures KeepsAllBut(h, Install(h, r, p, k), 0)
    ensures var h' := Install(h, r, p, k);
            r in h'.role && h'.role[r] == InUse(k) && r in h'.flist && h'.flist[r] == FullList(p, k)
  {
    hide BlockOn, NthBlock, PageOf, RefLists, PageRefs, FreeLists, Chunks, Lives, MkPab, ThreadedPage;
    InstallInv(h, r, p, k);
    InstallKeeps(h, r, p, k);
    InstallPaged(h, r, p, k);
    SettledButFrame(h, Install(h, r, p, k), r);
  }

  lemma RecycleSettles(h: Heap, r: int)
    requires SettledBut(h, r) && r in h.role && h.role[r] == Held && MayLead(h, r)
    ensures Settled(Recycle(h, r)) && Recycle(h, r).live == h.live && KeepsAllBut(h, Recycle(h, r), 0)
  {
    hide BlockOn, PageOf, RefLists, PageRefs, FreeLists, Chunks, BlocksPerPage;
    var h' := Recycle(h, r);
    RecycleInv(h, r);
    RefWordsInHeap(h, r);
    forall x | x in h.live ensures h.live[x] != Small(r) { NoLiveBlocksUnlessInUse(h, r, x); }
    RefStepKeeps(h, h', r);
    RecyclePaged(h, r);
    hide PagedFirst;
    SettledButFrame(h, h', r);
  }

  lemma BlockStepPaged(h: Heap, h': Heap, r: int, x: int)
    requires Inv(h) && PagedFirst(h) && BlockStep(h, h', r, x)
    ensures PagedFirst(h')
  {
    hide BlockOn, PageOf, RefLists, PageRefs, FreeLists, Chunks, Lives, PagedFirst;
    forall q | q in h.recycledRefs ensures Same(h, h', q + PAB) {
      RecycledKnown(h, q);
      BlockStepRef(h, h', r, x, q, PAB);
    }
    PagedFirstFrame(h, h');
  }

  lemma TakeSettles(h: Heap, r: int)
    requires SettledBut(h, r) && r in h.role && h.role[r].InUse? && r in h.flist && h.flist[r] != []
    ensures var h', x := Take(h, r), h.flist[r][0];
            Settled(h') && x !in h.live && x != 0 && h'.live == h.live[x := Small(r)] && KeepsAllBut(h, h', 0)
  {
    hide BlockOn, PageOf, RefLists, PageRefs, Chunks, BlocksPerPage, Lives;
    var h', x := Take(h, r), h.flist[r][0];
    TakeInv(h, r);
    assert FreeListOk(h, r);
    assert x in h.flist[r];
    TakeIsBlockStep(h, r);
    BlockStepKeeps(h, h', r, x);
    BlockStepPaged(h, h', r, x);
    hide PagedFirst;
    SettledButFrame(h, h', r);
    FullIffNoneLive(h, r);
    assert PartlyUsed(h', r);
  }

  lemma PutSettles(h: Heap, x: int)
    requires Settled(h) && x in h.live && h.live[x].Small?
    ensures SettledBut(Put(h, x), h.live[x].ref) && KeepsAllBut(h, Put(h, x), x)
  {
    hide BlockOn, PageOf, RefLists, PageRefs, FreeLists, Chunks, BlocksPerPage, Deadbeef;
    var h', r := Put(h, x), h.live[x].ref;
    PutInv(h, x);
    PutIsBlockStep(h, x);
    BlockStepKeeps(h, h', r, x);
    BlockStepPaged(h, h', r, x);
    hide PagedFirst;
    SettledIsSettledBut(h, r);
    SettledButFrame(h, h', r);
  }

  lemma DetachSettles(h: Heap, k: nat, i: nat)
    requires Inv(h) && k < NSIZES && i < |h.inUse[k]|
    requires SettledBut(h, h.inUse[k][i]) && forall x :: x in h.live ==> h.live[x] != Small(h.inUse[k][i])
    ensures SettledBut(Detach(h, k, i), h.inUse[k][i]) && Detach(h, k, i).live == h.live
    ensures KeepsAllBut(h, Detach(h, k, i), 0)
  {
    hide BlockOn, PageOf, RefLists, PageRefs, FreeLists, Chunks, Lives, UnlinkMemory, UnlinkHead;
    DetachInv(h, k, i);
    DetachIsRefStep(h, k, i);
    RefStepKeeps(h, Detach(h, k, i), h.inUse[k][i]);
    DetachRoots(h, k, i);
    RefStepPaged(h, Detach(h, k, i), h.inUse[k][i]);
    hide PagedFirst;
    SettledButFrame(h, Detach(h, k, i), h.inUse[k][i]);
  }

  lemma ChunkStepPaged(h: Heap, h': Heap)
    requires Inv(h) && PagedFirst(h) && ChunkStep(h, h')
    ensures PagedFirst(h')
  {
    hide BlockOn, PageOf, RefLists, PageRefs, FreeLists, Chunks, Lives, PagedFirst;
    forall q | q in h.recycledRefs ensures Same(h, h', q + PAB) {
      RecycledKnown(h, q);
      SlotWordSame(h, h', q, PAB);
    }
    PagedFirstFrame(h, h');
  }

  /** An in-use pageref has a page, and keeps it when it leaves its size list. */
  lemma DetachLeads(h: Heap, k: nat, i: nat)
    requires Inv(h) && k < NSIZES && i < |h.inUse[k]|
    ensures MayLead(Detach(h, k, i), h.inUse[k][i])
  {
    hide PageOf, RefLists, FreeLists, Chunks, Lives, BlockType;
    var h', r := Detach(h, k, i), h.inUse[k][i];
    DetachIsRefStep(h, k, i);
    assert r in h.role && h.role[r] == InUse(k) by { InUseKnown(h, k, i); }
    RefStepRefWords(h, h', r, r);
    assert PageRefOk(h, r);
    hide Detach;
  }

  lemma InUseKnown(h: Heap, k: nat, i: nat)
    requires Inv(h) && k < NSIZES && i < |h.inUse[k]|
    ensures h.inUse[k][i] in h.role && h.role[h.inUse[k][i]] == InUse(k)
  {
    hide PageRefs, FreeLists, Chunks, Lives;
    assert SizeList(h, k);
    var r := h.inUse[k][i];
    assert r in h.inUse[k];
  }

  /** Chunk steps never unsettle anything. */
  lemma ChunkStepSettles(h: Heap, h': Heap)
    requires Settled(h) && ChunkStep(h, h') && Inv(h')
    ensures Settled(h')
  {
    ChunkStepPaged(h, h');
    hide Inv, BlocksPerPage, PagedFirst;
    forall r | r in h'.role && h'.role[r].InUse? ensures PartlyUsed(h', r) {
      assert PartlyUsed(h, r);
    }
  }

  /** `p` is a new live block and every other live block is kept. */
  ghost predicate Allocates(h: Heap, h': Heap, p: int) {
    && p != 0 && p !in h.live && p in h'.live
    && h'.live == h.live[p := h'.live[p]]
    && KeepsAllBut(h, h', 0)
  }

  /** `p` is no longer live and every other live block is kept. */
  ghost predicate Frees(h: Heap, h': Heap, p: int) {
    p in h.live && h'.live == h.live - {p} && KeepsAllBut(h, h', p)
  }

  lemma TakeAllocates(h0: Heap, h: Heap, r: int, k: nat)
    requires SettledBut(h, r) && r in h.role && h.role[r] == InUse(k) && r in h.flist && h.flist[r] != []
    requires h.live == h0.live && KeepsAllBut(h0, h, 0) && k < NSIZES
    ensures Settled(Take(h, r)) && Allocates(h0, Take(h, r), h.flist[r][0])
    ensures Take(h, r).live[h.flist[r][0]] == Small(r) && Extent(Take(h, r), h.flist[r][0]) == BlockWords(k)
  {
    hide Inv;
    TakeSettles(h, r);
    KeepsChain(h0, h, Take(h, r), 0);
  }

  lemma KeepsSelf(h: Heap)
    ensures KeepsAllBut(h, h, 0)
  {
  }

  /** Freeing the last live block of a page leaves the page without live blocks. */
  lemma FullListNoneLive(h: Heap, r: int)
    requires Inv(h) && r in h.role && h.role[r].InUse? && r in h.flist && h.role[r].k < NSIZES
    requires |h.flist[r]| == BlocksPerPage(h.role[r].k)
    ensures forall x :: x in h.live ==> h.live[x] != Small(r)
  {
    hide BlockOn, PageOf, BlocksPerPage, RefLists, PageRefs, Chunks;
    assert FreeListOk(h, r);
    FullIffNoneLive(h, r);
    forall x | x in h.live ensures h.live[x] != Small(r) {
      assert LiveOk(h, x);
    }
  }

  lemma PartlyUsedSettles(h: Heap, r: int)
    requires SettledBut(h, r) && r in h.role && h.role[r].InUse? && h.role[r].k < NSIZES
    requires r in h.flist && |h.flist[r]| < BlocksPerPage(h.role[r].k)
    ensures Settled(h)
  {
    hide Inv, BlocksPerPage;
    assert PartlyUsed(h, r);
  }

  lemma SettledParts(h: Heap)
    requires Settled(h)
    ensures Inv(h) && Shape(h) && RefLists(h)
  {
  }

  /** Each way of getting a pageref hands one out; only a new page of them grows the heap. */
  lemma HandedOut(h: Heap, h': Heap, r: int)
    requires Settled(h) && r != 0
    requires h.recycledRefs != [] ==> r == h.recycledRefs[0] && h' == PopRecycled(h)
    requires h.recycledRefs == [] && h.freshRefs != [] ==> r == h.freshRefs[0] && h' == PopFresh(h)
    requires h.recycledRefs == [] && h.freshRefs == [] ==> CanGrow(h, 1) && r == PAGE_WORDS * h.hi && h' == NewRefPage(h)
    ensures HandsOut(h, h', r)
    ensures h.recycledRefs != [] ==> h'.hi == h.hi && PageOfRef(h', r) == PageOfRef(h, r)
  {
    hide PageRefs, FreeLists, Chunks, Lives, NewRefPage, PageOf;
    if h.recycledRefs != [] {
      PopRecycledHandsOut(h);
    } else if h.freshRefs != [] {
      PopFreshHandsOut(h);
    } else {
      NewRefPageHandsOut(h);
    }
  }

  /** After a page is installed its first free block can be taken. */
  lemma NewPageReady(h0: Heap, h1: Heap, h2: Heap, r: int, p: int, k: nat)
    requires HandsOut(h0, h1, r) && k < NSIZES && Installable(h1, r, p) && h2 == Install(h1, r, p, k)
    ensures SettledBut(h2, r) && h2.live == h0.live && KeepsAllBut(h0, h2, 0)
    ensures r in h2.role && h2.role[r] == InUse(k) && r in h2.flist && h2.flist[r] != []
    ensures p != h1.hi ==> h2.hi == h1.hi
  {
    hide Inv, NthBlock, BlocksPerPage, MkPab, PageOf;
    InstallSettles(h1, r, p, k);
    FullListHead(p, k);
    KeepsChain(h0, h1, h2, 0);
  }

  lemma SmallBlockInMemory(h: Heap, x: int)
    requires Inv(h) && x in h.live && h.live[x].Small?
    ensures h.live[x].ref in h.role && h.role[h.live[x].ref].InUse? && h.role[h.live[x].ref].k < NSIZES
    ensures 0 < x && x + BlockWords(h.role[h.live[x].ref].k) <= |h.m|
  {
    hide BlockOn, PageOf, BlockType, RefLists, PageRefs, FreeLists, Chunks;
    assert LiveOk(h, x);
    LiveWordOwner(h, x, x);
    LiveWordOwner(h, x, x + BlockWords(h.role[h.live[x].ref].k) - 1);
  }

  /** Every word of the block but its first, where the free list's link is, holds the pattern that
      marks freed memory. */
  ghost predicate Overwritten(h: Heap, x: int, n: int) {
    forall w :: x < w < x + n ==> Word(h, w) == 0xdead_beef_dead_beef
  }

  lemma PutOverwrites(h: Heap, x: int)
    requires Inv(h) && x in h.live && h.live[x].Small?
    ensures Overwritten(Put(h, x), x, Extent(h, x))
  {
    hide BlockOn, PageOf, BlockType, RefLists, PageRefs, FreeLists, Chunks;
    var h', r := Put(h, x), h.live[x].ref;
    SmallBlockInMemory(h, x);
    forall w | x < w < x + Extent(h, x) ensures Word(h', w) == 0xdead_beef_dead_beef {
      RefSlotApart(h, x, w, r);
    }
  }

  lemma StaysOverwritten(h: Heap, h1: Heap, h2: Heap, x: int)
    requires Inv(h) && x in h.live && h1.owner == h.owner && Overwritten(h1, x, Extent(h, x))
    requires forall w {:trigger Same(h1, h2, w)} ::
               Page(w) in h1.owner && h1.owner[Page(w)] != Refs ==> Same(h1, h2, w)
    ensures Overwritten(h2, x, Extent(h, x))
  {
    hide Inv, Page, Extent;
    forall w | x < w < x + Extent(h, x) ensures Word(h2, w) == 0xdead_beef_dead_beef {
      assert Within(h, x, w);
      LiveWordOwner(h, x, w);
      assert Same(h1, h2, w);
    }
  }

  /** Recycling a page's pageref writes to no page that has another use than pageref storage. */
  lemma DetachRecycleWord(h: Heap, k: nat, i: nat, w: int)
    requires Inv(h) && k < NSIZES && i < |h.inUse[k]| && Page(w) in h.owner && h.owner[Page(w)] != Refs
    requires var h2, r := Detach(h, k, i), h.inUse[k][i]; Inv(h2) && r in h2.role && h2.role[r] == Held
    ensures Same(h, Recycle(Detach(h, k, i), h.inUse[k][i]), w)
  {
    hide RefLists, PageRefs, FreeLists, Chunks, Lives, Page, Chain, UnlinkMemory;
    var h2, r := Detach(h, k, i), h.inUse[k][i];
    DetachIsRefStep(h, k, i);
    NextWordsAreLinks(h, w);
    assert Same(h, h2, w);
    NextWordsAreLinks(h2, w);
    RefWordsInHeap(h2, r);
  }

  /** Overwriting a live block does not touch its page's pageref. */
  lemma PutReadsUnfilled(h: Heap, x: int)
    requires Inv(h) && x in h.live && h.live[x].Small?
    ensures var r := h.live[x].ref;
            && r in h.role && h.role[r].InUse? && h.role[r].k < NSIZES && 0 <= r && r + NFREE < |h.m|
            && Deadbeef(h.m, x, BlockWords(h.role[r].k))[r + FLIST] == h.m[r + FLIST]
            && Deadbeef(h.m, x, BlockWords(h.role[r].k))[r + NFREE] == h.m[r + NFREE]
            && x != r + FLIST && x != r + NFREE
  {
    hide BlockOn, PageOf, BlockType, RefLists, PageRefs, FreeLists, Chunks;
    var r := h.live[x].ref;
    assert LiveOk(h, x);
    RefWordsInHeap(h, r);
    if Within(h, x, r + FLIST) { RefSlotApart(h, x, r + FLIST, r); }
    if Within(h, x, r + NFREE) { RefSlotApart(h, x, r + NFREE, r); }
  }

  /** What the page search finds for a live pointer: its own pageref if it is a small block,
      nothing if it is a big one. */
  lemma FoundPage(h: Heap, x: int, r: int)
    requires Inv(h) && x in h.live
    requires r != 0 ==> r in h.role && h.role[r].InUse? && Page(x) == PageOfRef(h, r)
    requires r == 0 ==> forall q :: q in h.role && h.role[q].InUse? ==> Page(x) != PageOfRef(h, q)
    ensures r != 0 <==> h.live[x].Small?
    ensures r != 0 ==> h.live[x] == Small(r) && BlockType(Word(h, r + PAB)) < NSIZES
                       && h.role[r] == InUse(BlockType(Word(h, r + PAB)))
                       && BlockOn(x, PageOfRef(h, r), BlockType(Word(h, r + PAB)))
                       && PAGE_WORDS * PageOfRef(h, r) <= x < PAGE_WORDS * PageOfRef(h, r) + PAGE_WORDS
  {
    hide PageOf, BlockOn, BlockType, RefLists, FreeLists, Chunks, Lives, PageRefs;
    PageBounds(Page(x), x);
    if h.live[x].Small? {
      SmallOwner(h, x);
      if r != 0 { PageOwnerUnique(h, r, x); }
    } else {
      BigHeader(h, x);
      ChunkHeader(h, x - 1);
      if r != 0 { PageOwnerUnique(h, r, x); }
    }
  }

  lemma SmallOwner(h: Heap, x: int)
    requires Inv(h) && x in h.live && h.live[x].Small?
    ensures var q := h.live[x].ref;
            && q in h.role && h.role[q].InUse? && h.role[q].k < NSIZES && q != 0
            && h.role[q] == InUse(BlockType(Word(h, q + PAB)))
            && Page(x) == PageOfRef(h, q) && Page(x) in h.owner && h.owner[Page(x)] == Sub(q)
            && BlockOn(x, PageOfRef(h, q), h.role[q].k)
  {
    hide PageOf, BlockOn, BlockType, RefLists, FreeLists, Chunks;
    assert LiveOk(h, x) && PageRefOk(h, h.live[x].ref);
    BlockOwner(h, h.live[x].ref, x);
    RefWordsInHeap(h, h.live[x].ref);
  }

  lemma PageOwnerUnique(h: Heap, r: int, x: int)
    requires Inv(h) && r in h.role && h.role[r].InUse? && Page(x) == PageOfRef(h, r)
    ensures Page(x) in h.owner && h.owner[Page(x)] == Sub(r)
  {
    hide PageOf, BlockOn, BlockType, RefLists, FreeLists, Chunks, Lives;
    assert PageRefOk(h, r);
  }

  lemma PutFacts(h: Heap, x: int)
    requires Inv(h) && x in h.live && h.live[x].Small?
    ensures var h' := Put(h, x); h'.role == h.role && h'.live == h.live - {x} && h'.hi == h.hi && h'.owner == h.owner
  {
  }

  lemma StepHi(h: Heap, r: int)
    requires Inv(h) && r in h.role && h.role[r].InUse? && r in h.flist && h.flist[r] != []
    ensures Take(h, r).hi == h.hi
  {
  }

  lemma RecycleHi(h: Heap, r: int)
    requires Inv(h) && r in h.role && h.role[r] == Held
    ensures Recycle(h, r).hi == h.hi
  {
  }

  lemma InUseListed(h: Heap, r: int, k: nat)
    requires Inv(h) && r in h.role && h.role[r] == InUse(k) && k < NSIZES
    ensures r in h.inUse[k]
  {
    hide PageRefs, FreeLists, Chunks, Lives;
    assert SizeList(h, k);
  }

  lemma NullNotLive(h: Heap)
    requires Inv(h)
    ensures 0 !in h.live
  {
    hide BlockOn, PageOf, BlockType, RefLists, PageRefs, FreeLists, Chunks;
    if 0 in h.live {
      assert LiveOk(h, 0);
      LiveWordOwner(h, 0, 0);
    }
  }

  lemma FreesChain(h0: Heap, h1: Heap, h2: Heap, x: int)
    requires Inv(h0) && Frees(h0, h1, x) && h2.live == h1.live && KeepsAllBut(h1, h2, 0)
    ensures Frees(h0, h2, x)
  {
    hide Inv;
    NullNotLive(h0);
    forall y | y in h0.live && y != x ensures KeepsBlock(h1, h2, y) {
      assert KeepsBlock(h0, h1, y);
    }
    assert KeepsAllBut(h1, h2, x);
    KeepsChain(h0, h1, h2, x);
  }

  /** The state before the first request. */
  ghost function EmptyHeap(m: seq<int>, p: int): Heap {
    Heap(m, p, p, 0, 0, seq(NSIZES, _ => 0), 0, [], [], seq(NSIZES, _ => []), [], map[], map[], map[], map[])
  }

  lemma EmptyHeapSettled(m: seq<int>, p: int)
    requires 0 < p <= PAGE_LIMIT && PAGE_WORDS * p <= |m|
    ensures Settled(EmptyHeap(m, p))
  {
    var h := EmptyHeap(m, p);
    forall k: nat | k < NSIZES ensures SizeList(h, k) {
    }
  }

  // ------------------------------------------------------------ big blocks

  /** The free chunk at position `i` is the first of at least `n` pages. */
  ghost predicate FirstFit(h: Heap, n: int, i: nat) {
    i < |h.bigFree| && n <= Word(h, h.bigFree[i]) && forall j :: 0 <= j < i ==> Word(h, h.bigFree[j]) < n
  }

  ghost predicate NoFit(h: Heap, n: int) {
    forall c :: c in h.bigFree ==> Word(h, c) < n
  }

  /** The free chunk at position `i` gives up `n` pages: its tail, or all of it. */
  ghost function UseChunk(h: Heap, i: nat, n: int): Heap
    requires Inv(h) && i < |h.bigFree| && 1 <= n <= Word(h, h.bigFree[i])
  {
    if Word(h, h.bigFree[i]) == n then Unlink(h, i) else Carve(h, i, n)
  }

  /** Some free chunk has at least `n` pages. */
  ghost predicate Fits(h: Heap, n: int) {
    exists c :: c in h.bigFree && n <= Word(h, c)
  }

  lemma FirstIsChunk(h: Heap)
    requires Inv(h) && h.bigFree != []
    ensures 1 <= Word(h, h.bigFree[0]) && 0 < h.bigFree[0] < |h.m| && h.bigFree[0] in h.bigFree
  {
    hide RefLists, PageRefs, FreeLists, Lives;
    FreeChunkFacts(h, 0);
  }

  lemma FirstFitUnique(h: Heap, n: int, i: nat)
    requires FirstFit(h, n, i)
    ensures !NoFit(h, n) && forall j: nat :: FirstFit(h, n, j) ==> j == i
  {
    assert h.bigFree[i] in h.bigFree;
  }

  lemma NoFitHere(h: Heap, n: int)
    requires forall j :: 0 <= j < |h.bigFree| ==> Word(h, h.bigFree[j]) < n
    ensures NoFit(h, n) && forall j: nat :: !FirstFit(h, n, j)
  {
  }

  lemma BigKmallocCases(h: Heap, n: int)
    ensures NoFit(h, n) || exists i: nat :: FirstFit(h, n, i)
  {
    if !NoFit(h, n) {
      var i: nat :| i < |h.bigFree| && n <= Word(h, h.bigFree[i]);
      FirstFitExists(h, n, i);
    }
  }

  lemma {:induction false} FirstFitExists(h: Heap, n: int, i: nat)
    requires i < |h.bigFree| && n <= Word(h, h.bigFree[i])
    ensures exists j: nat :: FirstFit(h, n, j)
    decreases i
  {
    if j: nat :| j < i && n <= Word(h, h.bigFree[j]) {
      FirstFitExists(h, n, j);
    } else {
      assert FirstFit(h, n, i);
    }
  }

  lemma CarveAllocates(h: Heap, i: nat, n: int)
    requires Settled(h) && i < |h.bigFree| && 1 <= n < Word(h, h.bigFree[i])
    ensures var h' := Carve(h, i, n);
            var x := h.bigFree[i] + PAGE_WORDS * (Word(h, h.bigFree[i]) - n) + 1;
            Settled(h') && Allocates(h, h', x) && h'.live[x] == Big && Extent(h', x) == PAGE_WORDS * n - 1
  {
    hide RefLists, PageRefs, FreeLists, Chunks, IsChunk, BlockOn, PageOf, PartlyUsed;
    var x := h.bigFree[i] + PAGE_WORDS * (Word(h, h.bigFree[i]) - n) + 1;
    CarveInv(h, i, n);
    CarveIsChunkStep(h, i, n);
    ChunkStepSettles(h, Carve(h, i, n));
    CarveKeeps(h, i, n);
    CarvedChunk(h, i, n);
    CarveBounds(h, i, n);
    if x in h.live { NotLiveOnFreeChunk(h, h.bigFree[i], x); }
  }

  /** No live block starts inside a free chunk. */
  lemma NotLiveOnFreeChunk(h: Heap, c: int, x: int)
    requires Inv(h) && c in h.bigFree && Page(x) in h.owner && h.owner[Page(x)] == Chunk(c)
    ensures x !in h.live
  {
    hide RefLists, PageRefs, FreeLists, BlockOn, PageOf;
    if x in h.live {
      assert LiveOk(h, x);
      LiveWordOwner(h, x, x);
    }
  }

  lemma UnlinkAllocates(h: Heap, i: nat)
    requires Settled(h) && i < |h.bigFree|
    ensures var h', x := Unlink(h, i), h.bigFree[i] + 1;
            Settled(h') && Allocates(h, h', x) && h'.live[x] == Big
            && Extent(h', x) == PAGE_WORDS * Word(h, h.bigFree[i]) - 1
  {
    hide RefLists, PageRefs, FreeLists, Chunks, IsChunk, BlockOn, PageOf, PartlyUsed, UnlinkMemory, UnlinkHead;
    FreeChunkFacts(h, i);
    UnlinkInv(h, i);
    UnlinkIsChunkStep(h, i);
    ChunkStepSettles(h, Unlink(h, i));
    UnlinkKeeps(h, i);
    UnlinkKeepsChunk(h, i, h.bigFree[i]);
  }

  lemma UnlinkStoresHere(h: Heap, i: nat)
    requires Inv(h) && i < |h.bigFree|
    ensures var c := h.bigFree[i];
            && 0 <= c && c + 1 < |h.m|
            && (i == 0 ==> Unlink(h, i).m == h.m && Unlink(h, i).bigHead == h.m[c + 1])
            && (i > 0 ==>
                  && h.bigFree[i - 1] != 0 && 0 <= h.bigFree[i - 1] + 1 < |h.m|
                  && Unlink(h, i).m == h.m[h.bigFree[i - 1] + 1 := h.m[c + 1]]
                  && Unlink(h, i).bigHead == h.bigHead)
  {
    hide RefLists, PageRefs, FreeLists, Lives, UnlinkMemory, UnlinkHead, IsChunk;
    FreeChunkFacts(h, i);
    UnlinkStores(h.m, h.bigHead, h.bigFree, 1, i);
  }

  lemma NewChunkAllocates(h: Heap, n: int)
    requires Settled(h) && CanGrow(h, n)
    ensures var h', x := NewChunk(h, n), PAGE_WORDS * h.hi + 1;
            Settled(h') && Allocates(h, h', x) && h'.live[x] == Big && Extent(h', x) == PAGE_WORDS * n - 1
  {
    hide RefLists, PageRefs, FreeLists, Chunks, IsChunk, BlockOn, PageOf, PartlyUsed;
    var x := PAGE_WORDS * h.hi + 1;
    NewChunkInv(h, n);
    NewChunkIsChunkStep(h, n);
    NewChunkChunks(h, n);
    ChunkStepSettles(h, NewChunk(h, n));
    NewChunkKeeps(h, n);
    if x in h.live {
      assert LiveOk(h, x);
      LiveWordOwner(h, x, x);
    }
  }

  lemma ReleaseHeader(h: Heap, x: int)
    requires Inv(h) && x in h.live && h.live[x] == Big
    ensures x - 1 in Release(h, x).bigFree && Word(Release(h, x), x - 1) == Word(h, x - 1)
  {
    hide RefLists, PageRefs, FreeLists, Chunks;
    BigHeader(h, x);
  }

  lemma ReleaseFrees(h: Heap, x: int)
    requires Settled(h) && x in h.live && h.live[x] == Big
    ensures Settled(Release(h, x)) && Frees(h, Release(h, x), x)
  {
    hide RefLists, PageRefs, FreeLists, Chunks, IsChunk, BlockOn, PageOf, PartlyUsed;
    ReleaseInv(h, x);
    ReleaseIsChunkStep(h, x);
    ChunkStepSettles(h, Release(h, x));
    ReleaseKeeps(h, x);
  }
}
