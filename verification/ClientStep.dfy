/** A caller writing into one of its live blocks: the allocator's own data is out of reach. */
module ClientStep {
  import opened PageLayout
  import opened HeapState
  import opened HeapFrames
  import opened HeapSafety

  ghost function Write(h: Heap, x: int, w: int, v: int): (h': Heap)
    requires Inv(h) && x in h.live && Within(h, x, w)
    ensures 0 <= w < |h.m| && h' == h.(m := h.m[w := v])
    ensures forall u {:trigger Same(h, h', u)} :: u != w ==> Same(h, h', u)
  {
    LiveWordOwner(h, x, w);
    h.(m := h.m[w := v])
  }

  lemma WriteRefs(h: Heap, x: int, w: int, v: int)
    requires Inv(h) && x in h.live && Within(h, x, w)
    ensures var h' := Write(h, x, w, v);
            Shape(h') && RefLists(h') && forall r :: r in h.role ==>
              Same(h, h', r + NEXT) && Same(h, h', r + FLIST) && Same(h, h', r + PAB) && Same(h, h', r + NFREE)
  {
    hide BlockOn, PageOf, BlockType, PageRefs, FreeLists, Chunks, Lives;
    var h' := Write(h, x, w, v);
    forall r | r in h.role
      ensures Same(h, h', r + NEXT) && Same(h, h', r + FLIST) && Same(h, h', r + PAB) && Same(h, h', r + NFREE)
    {
      RefSlotApart(h, x, w, r);
    }
    RefListsFrame(h, h');
  }

  lemma WritePageRefs(h: Heap, x: int, w: int, v: int)
    requires Inv(h) && x in h.live && Within(h, x, w)
    ensures PageRefs(Write(h, x, w, v))
  {
    hide BlockOn, PageOf, BlockType, FreeLists, Chunks, Lives, RefLists;
    var h' := Write(h, x, w, v);
    WriteRefs(h, x, w, v);
    forall r | r in h'.role ensures PageRefOk(h', r) {
      assert PageRefOk(h, r) && Same(h, h', r + PAB);
    }
    forall p | p in h'.owner && h'.owner[p].Sub?
      ensures h'.owner[p].ref in h'.role && h'.role[h'.owner[p].ref] != Fresh && PageOfRef(h', h'.owner[p].ref) == p
    {
      assert Same(h, h', h.owner[p].ref + PAB);
    }
  }

  lemma WriteFreeList(h: Heap, x: int, w: int, v: int, r: int)
    requires Inv(h) && x in h.live && Within(h, x, w) && r in h.role && h.role[r].InUse?
    ensures FreeListOk(Write(h, x, w, v), r)
  {
    hide BlockOn, PageOf, BlockType, Chunks, Lives, RefLists;
    var h' := Write(h, x, w, v);
    WriteRefs(h, x, w, v);
    assert FreeListOk(h, r);
    forall a | a in h.flist[r] ensures Same(h, h', a + 0) {
      FreeBlockApart(h, x, w, r, a);
    }
    FreeListFrame(h, h', r);
  }

  lemma WriteChunkPage(h: Heap, x: int, w: int, v: int, p: int)
    requires Inv(h) && x in h.live && Within(h, x, w) && p in h.owner && h.owner[p].Chunk?
    ensures SameChunkPage(h, Write(h, x, w, v), p)
  {
    hide BlockOn, PageOf, BlockType, RefLists, FreeLists, Lives;
    ChunkHeaderApart(h, x, w, p);
    assert ChunkPageOk(h, p, h.owner[p].hdr);
    if h.owner[p].hdr in h.bigFree { FreeChunkApart(h, x, w, h.owner[p].hdr); }
  }

  lemma WriteLive(h: Heap, x: int, w: int, v: int, y: int)
    requires Inv(h) && x in h.live && Within(h, x, w) && y in h.live
    ensures LiveOk(Write(h, x, w, v), y)
  {
    hide BlockOn, PageOf, BlockType, RefLists, FreeLists, Chunks;
    var h' := Write(h, x, w, v);
    assert LiveOk(h, y);
    match h.live[y]
    case Small(q) =>
      WriteRefs(h, x, w, v);
      LiveSmallFrame(h, h', y, q);
    case Big =>
      ChunkHeader(h, y - 1);
      ChunkHeaderApart(h, x, w, Page(y - 1));
      LiveBigFrame(h, h', y);
  }

  lemma WriteInv(h: Heap, x: int, w: int, v: int)
    requires Inv(h) && x in h.live && Within(h, x, w)
    ensures Inv(Write(h, x, w, v)) && (Settled(h) ==> Settled(Write(h, x, w, v)))
  {
    hide BlockOn, PageOf, BlockType, RefLists;
    var h' := Write(h, x, w, v);
    WriteRefs(h, x, w, v);
    WritePageRefs(h, x, w, v);
    if PagedFirst(h) {
      forall q | q in h.recycledRefs ensures Same(h, h', q + PAB) { RecycledKnown(h, q); }
      PagedFirstFrame(h, h');
    }
    hide PagedFirst;
    forall p | p in h.owner && h.owner[p].Chunk? ensures SameChunkPage(h, h', p) {
      WriteChunkPage(h, x, w, v, p);
    }
    ChunksFrame(h, h');
    forall r | r in h'.role && h'.role[r].InUse? ensures FreeListOk(h', r) && (PartlyUsed(h, r) ==> PartlyUsed(h', r)) {
      WriteFreeList(h, x, w, v, r);
    }
    forall y | y in h'.live ensures LiveOk(h', y) {
      WriteLive(h, x, w, v, y);
    }
  }
}
