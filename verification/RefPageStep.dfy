/** The step that turns a newly obtained page into pageref storage: slot 0 is handed out at
    once, the other slots are chained up as the fresh list. It keeps the invariant. */
module RefPageStep {
  import opened Sequences
  import opened PageLayout
  import opened Chains
  import opened HeapState
  import opened HeapFrames
  import opened HeapSafety
  import opened PageSteps
  import RefSteps
  import BlockSteps

  /** A zeroed page whose slots 1 to 127 are linked in order. */
  ghost function RefPage(m: seq<int>, p: int): (t: seq<int>)
    ensures |t| == |m|
  {
    seq(|m|, i requires 0 <= i < |m| =>
      if Page(i) != p then m[i]
      else if PAGE_WORDS * p < i < PAGE_WORDS * p + PAGE_WORDS - REF_WORDS && i % REF_WORDS == 0 then i + REF_WORDS
      else 0)
  }

  ghost function FreshSlots(p: int): seq<int> {
    seq(REFS_PER_PAGE - 1, i => PAGE_WORDS * p + REF_WORDS * (i + 1))
  }

  ghost function NewRefPage(h: Heap): Heap {
    var p := h.hi;
    h.(m := RefPage(h.m, p), hi := p + 1,
       freshHead := PAGE_WORDS * p + REF_WORDS, freshRefs := FreshSlots(p),
       role := h.role + (map r | PAGE_WORDS * p <= r < PAGE_WORDS * p + PAGE_WORDS && r % REF_WORDS == 0 ::
                           if r == PAGE_WORDS * p then Held else Fresh),
       owner := h.owner[p := Refs])
  }

  lemma OldWordSame(h: Heap, w: int)
    requires Shape(h) && w < PAGE_WORDS * h.hi
    ensures Same(h, NewRefPage(h), w)
  {
  }

  lemma NewRefPageShape(h: Heap)
    requires Inv(h) && CanGrow(h, 1)
    ensures Shape(NewRefPage(h))
    ensures forall r :: r in h.role ==> r in NewRefPage(h).role && NewRefPage(h).role[r] == h.role[r]
    ensures forall r :: r in NewRefPage(h).role && r !in h.role ==>
              Page(r) == h.hi && NewRefPage(h).role[r] == if r == PAGE_WORDS * h.hi then Held else Fresh
  {
    hide RefLists, PageRefs, FreeLists, Chunks, Lives, RefPage;
    var h' := NewRefPage(h);
    forall r ensures r in h'.role <==> r % REF_WORDS == 0 && Page(r) in h'.owner && h'.owner[Page(r)] == Refs {
      PageBounds(h.hi, r);
    }
  }

  lemma OldRefSame(h: Heap, r: int, i: int)
    requires Inv(h) && r in h.role && 0 <= i < REF_WORDS
    ensures Same(h, NewRefPage(h), r + i)
  {
    hide RefLists, PageRefs, FreeLists, Chunks, Lives, RefPage;
    RefWordsInHeap(h, r);
    OldWordSame(h, r + i);
  }

  /** A list of pagerefs that existed before is unchanged. */
  lemma OldListSame(h: Heap, head: int, s: seq<int>, tag: Role)
    requires Inv(h) && CanGrow(h, 1) && Chain(h.m, head, s, NEXT) && Lists(h.role, s, tag)
    requires tag != Fresh && tag != Held
    ensures Chain(NewRefPage(h).m, head, s, NEXT) && Lists(NewRefPage(h).role, s, tag)
  {
    hide RefLists, PageRefs, FreeLists, Chunks, Lives, RefPage, NewRefPage;
    var h' := NewRefPage(h);
    NewRefPageShape(h);
    forall c | c in s ensures Same(h, h', c + NEXT) { OldRefSame(h, c, NEXT); }
    NewRefPageRoots(h);
    ChainSame(h, h', head, s, NEXT);
  }

  lemma NewRefPageRoots(h: Heap)
    ensures var h' := NewRefPage(h);
            && |h'.m| == |h.m| && h'.lo == h.lo && h'.hi == h.hi + 1
            && h'.recycledHead == h.recycledHead && h'.recycledRefs == h.recycledRefs
            && h'.sizebases == h.sizebases && h'.inUse == h.inUse && h'.flist == h.flist
            && h'.bigHead == h.bigHead && h'.bigFree == h.bigFree && h'.live == h.live
            && h'.owner == h.owner[h.hi := Refs]
            && h'.freshHead == PAGE_WORDS * h.hi + REF_WORDS && h'.freshRefs == FreshSlots(h.hi)
  {
  }

  lemma FreshChain(m: seq<int>, p: int)
    requires 0 < p && PAGE_WORDS * p + PAGE_WORDS <= |m|
    ensures Chain(RefPage(m, p), PAGE_WORDS * p + REF_WORDS, FreshSlots(p), NEXT) && Distinct(FreshSlots(p))
  {
    var s, t := FreshSlots(p), RefPage(m, p);
    forall i | 0 <= i < |s| ensures s[i] != 0 && 0 <= s[i] + NEXT < |t| && t[s[i] + NEXT] == At(s, i + 1) {
      PageBounds(p, s[i]);
    }
    assert InMemory(t, s, NEXT);
  }

  lemma NthSlot(p: int, i: int)
    requires 0 <= i < REFS_PER_PAGE - 1
    ensures var r := PAGE_WORDS * p + REF_WORDS * (i + 1);
            PAGE_WORDS * p < r < PAGE_WORDS * p + PAGE_WORDS && r % REF_WORDS == 0
  {
  }

  lemma SlotIndex(p: int, r: int) returns (i: int)
    requires PAGE_WORDS * p < r < PAGE_WORDS * p + PAGE_WORDS && r % REF_WORDS == 0
    ensures 0 <= i < REFS_PER_PAGE - 1 && r == PAGE_WORDS * p + REF_WORDS * (i + 1)
  {
    i := r / REF_WORDS - REFS_PER_PAGE * p - 1;
  }

  lemma SlotOfPage(p: int, r: int)
    ensures r in FreshSlots(p) <==> Page(r) == p && r % REF_WORDS == 0 && r != PAGE_WORDS * p
  {
    hide Page;
    PageBounds(p, r);
    var s := FreshSlots(p);
    if Page(r) == p && r % REF_WORDS == 0 && r != PAGE_WORDS * p {
      var i := SlotIndex(p, r);
      assert s[i] == r;
    }
    if r in s {
      var j :| 0 <= j < |s| && s[j] == r;
      NthSlot(p, j);
    }
  }

  lemma FreshListed(h: Heap)
    requires Inv(h) && CanGrow(h, 1) && h.freshRefs == []
    ensures Lists(NewRefPage(h).role, FreshSlots(h.hi), Fresh)
  {
    hide PageRefs, FreeLists, Chunks, Lives, RefPage, FreshSlots, NewRefPage;
    var h' := NewRefPage(h);
    NewRefPageShape(h);
    NewRefPageRoots(h);
    FreshChain(h.m, h.hi);
    forall r ensures r in FreshSlots(h.hi) <==> r in h'.role && h'.role[r] == Fresh {
      SlotOfPage(h.hi, r);
      if r in h.role { RefWordsInHeap(h, r); }
    }
  }

  lemma NewRefPageLists(h: Heap)
    requires Inv(h) && CanGrow(h, 1) && h.freshRefs == []
    ensures Shape(NewRefPage(h)) && RefLists(NewRefPage(h))
  {
    hide PageRefs, FreeLists, Chunks, Lives, RefPage, Lists, Chain, FreshSlots, Page;
    var h' := NewRefPage(h);
    NewRefPageShape(h);
    FreshListed(h);
    FreshChain(h.m, h.hi);
    OldListSame(h, h.recycledHead, h.recycledRefs, Recycled);
    forall k: nat | k < NSIZES ensures SizeList(h', k) {
      assert SizeList(h, k);
      OldListSame(h, h.sizebases[k], h.inUse[k], InUse(k));
    }
  }

  lemma NewSlotZero(h: Heap, r: int)
    requires Inv(h) && CanGrow(h, 1) && r in NewRefPage(h).role && r !in h.role
    ensures Word(NewRefPage(h), r + PAB) == 0
  {
    hide RefLists, PageRefs, FreeLists, Chunks, Lives;
    NewRefPageShape(h);
    SlotArithmetic(r);
  }

  lemma NewRefPagePageRefs(h: Heap)
    requires Inv(h) && CanGrow(h, 1)
    ensures PageRefs(NewRefPage(h))
  {
    hide PageOf, BlockType, RefLists, FreeLists, Chunks, Lives, RefPage, NewRefPage;
    var h' := NewRefPage(h);
    NewRefPageShape(h);
    NewRefPageRoots(h);
    forall r | r in h'.role ensures PageRefOk(h', r) {
      if r in h.role {
        assert PageRefOk(h, r);
        OldRefSame(h, r, PAB);
      } else {
        NewSlotZero(h, r);
        assert PageOf(0) == 0 by { RefSteps.EmptyWordHasNoPage(); }
      }
    }
    forall p | p in h'.owner && h'.owner[p].Sub?
      ensures h'.owner[p].ref in h'.role && h'.role[h'.owner[p].ref] != Fresh && PageOfRef(h', h'.owner[p].ref) == p
    {
      OldRefSame(h, h.owner[p].ref, PAB);
    }
  }

  lemma NewRefPageFreeList(h: Heap, r: int)
    requires Inv(h) && CanGrow(h, 1) && r in h.role && h.role[r].InUse?
    ensures FreeListOk(NewRefPage(h), r)
  {
    hide BlockOn, PageOf, BlockType, RefLists, Chunks, Lives, RefPage, NewRefPage;
    var h' := NewRefPage(h);
    NewRefPageShape(h);
    NewRefPageRoots(h);
    assert FreeListOk(h, r);
    OldRefSame(h, r, FLIST);
    OldRefSame(h, r, PAB);
    OldRefSame(h, r, NFREE);
    forall a | a in h.flist[r] ensures Same(h, h', a + 0) {
      assert PageRefOk(h, r);
      BlockSteps.BlockOwner(h, r, a);
      OldWordSame(h, a);
    }
    FreeListFrame(h, h', r);
  }

  lemma NewRefPageInv(h: Heap)
    requires Inv(h) && CanGrow(h, 1) && h.freshRefs == []
    ensures Inv(NewRefPage(h)) && PageOfRef(NewRefPage(h), PAGE_WORDS * h.hi) == 0
  {
    hide BlockOn, PageOf, BlockType, RefLists, RefPage, NewRefPage;
    var h' := NewRefPage(h);
    NewRefPageRoots(h);
    NewRefPageShape(h);
    NewRefPageLists(h);
    NewRefPagePageRefs(h);
    NewRefPageChunks(h);
    forall r | r in h'.role && h'.role[r].InUse? ensures FreeListOk(h', r) {
      NewRefPageFreeList(h, r);
    }
    forall x | x in h'.live ensures LiveOk(h', x) {
      NewRefPageLive(h, x);
    }
    NewSlotZero(h, PAGE_WORDS * h.hi);
    RefSteps.EmptyWordHasNoPage();
  }

  lemma NewRefPageChunks(h: Heap)
    requires Inv(h) && CanGrow(h, 1)
    ensures Chunks(NewRefPage(h))
  {
    hide BlockOn, PageOf, BlockType, RefLists, PageRefs, FreeLists, Lives, RefPage, NewRefPage;
    var h' := NewRefPage(h);
    NewRefPageRoots(h);
    NewRefPageShape(h);
    forall b | b in h.owner && h.owner[b].Chunk? ensures SameChunkPage(h, h', b) {
      var c := h.owner[b].hdr;
      assert ChunkPageOk(h, b, c);
      ChunkHeader(h, c);
      OldWordSame(h, c);
      OldWordSame(h, c + 1);
    }
    ChunksFrame(h, h');
  }

  lemma NewRefPageLive(h: Heap, x: int)
    requires Inv(h) && CanGrow(h, 1) && x in h.live
    ensures LiveOk(NewRefPage(h), x)
  {
    hide BlockOn, PageOf, BlockType, RefLists, PageRefs, FreeLists, Chunks, RefPage, NewRefPage;
    var h' := NewRefPage(h);
    NewRefPageRoots(h);
    NewRefPageShape(h);
    assert LiveOk(h, x);
    match h.live[x]
    case Small(q) =>
      OldRefSame(h, q, PAB);
      LiveSmallFrame(h, h', x, q);
    case Big =>
      ChunkHeader(h, x - 1);
      OldWordSame(h, x - 1);
      LiveBigFrame(h, h', x);
  }
}
