/** Which words each part of the invariant depends on: if a step leaves those words and the
    matching ledger entries alone, that part still holds. */
module HeapFrames {
  import opened PageLayout
  import opened Chains
  import opened HeapState

  /** Word `w` reads the same before and after. */
  ghost predicate Same(h: Heap, h': Heap, w: int) {
    Word(h', w) == Word(h, w)
  }

  /** The two states have equally large memories and pages are only ever added. */
  ghost predicate Grows(h: Heap, h': Heap) {
    |h'.m| == |h.m| && h'.lo == h.lo && h.hi <= h'.hi
  }

  lemma PagedFirstFrame(h: Heap, h': Heap)
    requires PagedFirst(h) && h'.recycledRefs == h.recycledRefs
    requires forall r :: r in h.recycledRefs ==> Same(h, h', r + PAB)
    ensures PagedFirst(h')
  {
    forall i, j | 0 <= i < j < |h'.recycledRefs| && Paged(h', h'.recycledRefs[j]) ensures Paged(h', h'.recycledRefs[i]) {
      var q, r := h.recycledRefs[i], h.recycledRefs[j];
      assert q in h.recycledRefs && r in h.recycledRefs;
    }
  }

  lemma RecycledKnown(h: Heap, r: int)
    requires Inv(h) && r in h.recycledRefs
    ensures r in h.role && h.role[r] == Recycled
  {
    hide PageRefs, FreeLists, Chunks, Lives;
  }

  lemma ChainSame(h: Heap, h': Heap, head: int, s: seq<int>, off: int)
    requires Chain(h.m, head, s, off) && |h'.m| == |h.m|
    requires forall c :: c in s ==> Same(h, h', c + off)
    ensures Chain(h'.m, head, s, off)
  {
    forall c | c in s ensures 0 <= c + off < |h.m| && h'.m[c + off] == h.m[c + off] {
      var i :| 0 <= i < |s| && s[i] == c;
      assert Same(h, h', c + off);
    }
    ChainFrame(h.m, h'.m, head, s, off);
  }

  lemma SizeListFrame(h: Heap, h': Heap, k: nat)
    requires Shape(h) && Shape(h') && |h'.m| == |h.m| && k < NSIZES && SizeList(h, k)
    requires h'.sizebases[k] == h.sizebases[k] && h'.inUse[k] == h.inUse[k]
    requires forall r :: r in h.inUse[k] ==> Same(h, h', r + NEXT)
    requires Lists(h'.role, h.inUse[k], InUse(k))
    ensures SizeList(h', k)
  {
    ChainSame(h, h', h.sizebases[k], h.inUse[k], NEXT);
  }

  /** Unchanged roots, roles and link words: unchanged pageref lists. */
  lemma RefListsFrame(h: Heap, h': Heap)
    requires Shape(h) && Shape(h') && RefLists(h) && |h'.m| == |h.m|
    requires h'.freshHead == h.freshHead && h'.freshRefs == h.freshRefs
    requires h'.recycledHead == h.recycledHead && h'.recycledRefs == h.recycledRefs
    requires h'.sizebases == h.sizebases && h'.inUse == h.inUse && h'.role == h.role
    requires forall r :: r in h.role ==> Same(h, h', r + NEXT)
    ensures RefLists(h')
  {
    ChainSame(h, h', h.freshHead, h.freshRefs, NEXT);
    ChainSame(h, h', h.recycledHead, h.recycledRefs, NEXT);
    forall k: nat | k < NSIZES ensures SizeList(h', k) {
      assert SizeList(h, k);
      SizeListFrame(h, h', k);
    }
  }

  lemma FreeListFrame(h: Heap, h': Heap, r: int)
    requires FreeListOk(h, r) && r in h'.role && h'.role[r] == h.role[r] && |h'.m| == |h.m|
    requires r in h'.flist && h'.flist[r] == h.flist[r]
    requires Same(h, h', r + FLIST) && Same(h, h', r + PAB) && Same(h, h', r + NFREE)
    requires forall a :: a in h.flist[r] ==> Same(h, h', a + 0)
    requires forall a :: BlockOn(a, PageOfRef(h, r), h.role[r].k) ==> (a in h'.live <==> a in h.live)
    ensures FreeListOk(h', r)
  {
    hide BlockOn, PageOf;
    ChainSame(h, h', Word(h, r + FLIST), h.flist[r], 0);
  }

  lemma IsChunkFrame(h: Heap, h': Heap, c: int)
    requires IsChunk(h, c) && Same(h, h', c) && Grows(h, h')
    requires forall p :: p in h.owner && h.owner[p] == Chunk(c) ==> p in h'.owner && h'.owner[p] == Chunk(c)
    ensures IsChunk(h', c)
  {
    forall p | Page(c) <= p < Page(c) + Word(h, c) ensures p in h'.owner && h'.owner[p] == Chunk(c) {
      assert p in h.owner && h.owner[p] == Chunk(c);
    }
  }

  /** The header of a chunk page: the chunk's first page owns both of its header words. */
  lemma ChunkHeader(h: Heap, c: int)
    requires Shape(h) && IsChunk(h, c)
    ensures Page(c) in h.owner && h.owner[Page(c)] == Chunk(c) && Page(c + 1) == Page(c)
    ensures PAGE_WORDS * h.lo <= c && c + 1 < PAGE_WORDS * h.hi <= |h.m|
  {
    assert Page(c) in h.owner;
  }

  ghost predicate SameChunkPage(h: Heap, h': Heap, p: int)
    requires p in h.owner && h.owner[p].Chunk?
  {
    && p in h'.owner && h'.owner[p] == h.owner[p]
    && Same(h, h', h.owner[p].hdr) && (h.owner[p].hdr in h.bigFree ==> Same(h, h', h.owner[p].hdr + 1))
    && (h.owner[p].hdr + 1 in h.live <==> h.owner[p].hdr + 1 in h'.live)
  }

  /** Unchanged chunk pages, chunk headers and chunk pointers: unchanged chunks. */
  lemma ChunksFrame(h: Heap, h': Heap)
    requires Shape(h) && Shape(h') && Chunks(h) && Grows(h, h')
    requires h'.bigHead == h.bigHead && h'.bigFree == h.bigFree
    requires forall p {:trigger h.owner[p]} :: p in h.owner && h.owner[p].Chunk? ==> SameChunkPage(h, h', p)
    requires forall p {:trigger h'.owner[p]} :: p in h'.owner && h'.owner[p].Chunk? ==> p in h.owner && h.owner[p] == h'.owner[p]
    ensures Chunks(h')
  {
    forall c | c in h.bigFree ensures IsChunk(h', c) && c + 1 !in h'.live && Same(h, h', c + 1) {
      ChunkHeader(h, c);
      assert SameChunkPage(h, h', Page(c));
      forall p | p in h.owner && h.owner[p] == Chunk(c) ensures p in h'.owner && h'.owner[p] == Chunk(c) {
        assert SameChunkPage(h, h', p);
      }
      IsChunkFrame(h, h', c);
    }
    ChainSame(h, h', h.bigHead, h.bigFree, 1);
    forall p | p in h'.owner && h'.owner[p].Chunk? ensures ChunkPageOk(h', p, h'.owner[p].hdr) {
      assert SameChunkPage(h, h', p) && ChunkPageOk(h, p, h.owner[p].hdr);
      var c := h.owner[p].hdr;
      forall q | q in h.owner && h.owner[q] == Chunk(c) ensures q in h'.owner && h'.owner[q] == Chunk(c) {
        assert SameChunkPage(h, h', q);
      }
      IsChunkFrame(h, h', c);
    }
  }

  /** A live big block survives a step that leaves its chunk alone. */
  lemma LiveBigFrame(h: Heap, h': Heap, x: int)
    requires Shape(h) && LiveOk(h, x) && h.live[x] == Big && x in h'.live && h'.live[x] == Big && Grows(h, h')
    requires forall p {:trigger h.owner[p]} :: p in h.owner && h.owner[p] == Chunk(x - 1) ==> p in h'.owner && h'.owner[p] == Chunk(x - 1)
    requires Same(h, h', x - 1)
    ensures LiveOk(h', x)
  {
    IsChunkFrame(h, h', x - 1);
  }

  lemma LiveSmallFrame(h: Heap, h': Heap, x: int, r: int)
    requires LiveOk(h, x) && h.live[x] == Small(r) && x in h'.live && h'.live[x] == Small(r)
    requires r in h'.role && h'.role[r] == h.role[r] && Same(h, h', r + PAB)
    ensures LiveOk(h', x)
  {
    hide BlockOn, PageOf;
  }
}
