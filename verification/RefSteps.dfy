/** The steps that move pagerefs between the fresh, recycled and size lists without touching
    any page: popping a pageref, making a page of new ones, recycling one, and unlinking one
    whose page has become wholly free. Each keeps the invariant. */
module RefSteps {
  import opened Sequences
  import opened PageLayout
  import opened Chains
  import opened HeapState
  import opened HeapFrames
  import opened BlockSteps

  /** Changing the role of one pageref leaves every list of a third role as it is. */
  lemma ListsOfOtherRoles(role: map<int, Role>, role': map<int, Role>, s: seq<int>, tag: Role, r: int)
    requires Lists(role, s, tag) && r in role && r in role'
    requires role'.Keys == role.Keys && forall q :: q in role && q != r ==> role'[q] == role[q]
    requires role[r] != tag && role'[r] != tag
    ensures Lists(role', s, tag)
  {
  }

  /** Only link words of pagerefs may differ, and only `r` changes its role, from or to
      `Held`; pages, blocks and chunks stay as they are. */
  ghost predicate RefStep(h: Heap, h': Heap, r: int) {
    && r in h.role && r in h'.role && h'.role == h.role[r := h'.role[r]]
    && h' == h.(m := h'.m, freshHead := h'.freshHead, freshRefs := h'.freshRefs,
                recycledHead := h'.recycledHead, recycledRefs := h'.recycledRefs,
                sizebases := h'.sizebases, inUse := h'.inUse, role := h'.role)
    && |h'.sizebases| == NSIZES && |h'.inUse| == NSIZES
    && |h'.m| == |h.m|
    && (forall w {:trigger Same(h, h', w)} :: (forall q :: q in h.role ==> w != q + NEXT) ==> Same(h, h', w))
  }

  lemma NextWordsAreLinks(h: Heap, w: int)
    requires Shape(h)
    requires (Page(w) in h.owner && h.owner[Page(w)] != Refs) || w % REF_WORDS != 0
    ensures forall q :: q in h.role ==> w != q + NEXT
  {
  }

  lemma RefStepChunks(h: Heap, h': Heap, r: int)
    requires Inv(h) && RefStep(h, h', r)
    ensures Shape(h') && Chunks(h')
  {
    hide BlockOn, PageOf, BlockType, RefLists, FreeLists, Lives;
    forall p | p in h.owner && h.owner[p].Chunk? ensures SameChunkPage(h, h', p) {
      var c := h.owner[p].hdr;
      assert ChunkPageOk(h, p, c);
      ChunkHeader(h, c);
      NextWordsAreLinks(h, c);
      NextWordsAreLinks(h, c + 1);
      assert Same(h, h', c) && Same(h, h', c + 1);
    }
    ChunksFrame(h, h');
  }

  /** No word of a pageref but its first is a link. */
  lemma RefStepWord(h: Heap, h': Heap, r: int, w: int)
    requires Shape(h) && RefStep(h, h', r) && w % REF_WORDS != 0
    ensures Same(h, h', w)
  {
    hide Page;
    NextWordsAreLinks(h, w);
  }

  lemma RefStepRefWords(h: Heap, h': Heap, r: int, q: int)
    requires Inv(h) && RefStep(h, h', r) && q in h.role
    ensures Same(h, h', q + FLIST) && Same(h, h', q + PAB) && Same(h, h', q + NFREE)
  {
    hide BlockOn, PageOf, BlockType, RefLists, FreeLists, Lives, Chunks, PageRefs, Page;
    assert Shape(h) && q % REF_WORDS == 0;
    hide Shape, RefStep, Same;
    RefStepWord(h, h', r, q + FLIST);
    RefStepWord(h, h', r, q + PAB);
    RefStepWord(h, h', r, q + NFREE);
  }

  /** A pageref that keeps its role keeps its page and its free list. */
  lemma RefStepOther(h: Heap, h': Heap, r: int, q: int)
    requires Inv(h) && RefStep(h, h', r) && q in h.role && q != r
    ensures PageRefOk(h', q) && (h'.role[q].InUse? ==> FreeListOk(h', q))
  {
    hide BlockOn, PageOf, BlockType, RefLists, Lives, Chunks;
    assert PageRefOk(h, q);
    RefStepRefWords(h, h', r, q);
    if h.role[q].InUse? {
      assert FreeListOk(h, q);
      forall a | a in h.flist[q] ensures Same(h, h', a + 0) {
        BlockOwner(h, q, a);
        NextWordsAreLinks(h, a);
      }
      FreeListFrame(h, h', q);
    }
  }

  lemma RefStepLive(h: Heap, h': Heap, r: int, x: int)
    requires Inv(h) && RefStep(h, h', r) && x in h.live && h.live[x] != Small(r)
    ensures LiveOk(h', x)
  {
    hide BlockOn, PageOf, BlockType, RefLists, FreeLists;
    assert LiveOk(h, x);
    match h.live[x]
    case Small(q) =>
      RefStepRefWords(h, h', r, q);
      LiveSmallFrame(h, h', x, q);
    case Big =>
      ChunkHeader(h, x - 1);
      NextWordsAreLinks(h, x - 1);
      LiveBigFrame(h, h', x);
  }

  /** All that is left to show for such a step is its lists and what `r` has become. */
  lemma RefStepInv(h: Heap, h': Heap, r: int)
    requires Inv(h) && RefStep(h, h', r)
    requires Shape(h') ==> RefLists(h')
    requires h'.role[r] != Fresh && !h'.role[r].InUse?
    requires forall x :: x in h.live ==> h.live[x] != Small(r)
    ensures Inv(h')
  {
    hide BlockOn, PageOf, BlockType, RefLists;
    RefStepChunks(h, h', r);
    RefStepRefWords(h, h', r, r);
    assert PageRefOk(h, r);
    forall q | q in h'.role ensures PageRefOk(h', q) {
      if q != r { RefStepOther(h, h', r, q); } else { EmptyWordHasNoPage(); }
    }
    forall p | p in h'.owner && h'.owner[p].Sub?
      ensures h'.owner[p].ref in h'.role && h'.role[h'.owner[p].ref] != Fresh && PageOfRef(h', h'.owner[p].ref) == p
    {
      RefStepRefWords(h, h', r, h.owner[p].ref);
    }
    forall q | q in h'.role && h'.role[q].InUse? ensures FreeListOk(h', q) {
      RefStepOther(h, h', r, q);
    }
    forall x | x in h'.live ensures LiveOk(h', x) {
      RefStepLive(h, h', r, x);
    }
  }

  lemma EmptyWordHasNoPage()
    ensures PageOf(0) == 0
  {
  }

  /** Small live blocks belong to in-use pagerefs only. */
  lemma NoLiveBlocksUnlessInUse(h: Heap, r: int, x: int)
    requires Inv(h) && r in h.role && !h.role[r].InUse? && x in h.live
    ensures h.live[x] != Small(r)
  {
    assert LiveOk(h, x);
  }

  // ------------------------------------------------------------ popping a pageref

  ghost function PopRecycled(h: Heap): Heap
    requires Inv(h) && h.recycledRefs != []
  {
    h.(recycledHead := Word(h, h.recycledHead + NEXT), recycledRefs := h.recycledRefs[1..],
       role := h.role[h.recycledHead := Held])
  }

  lemma PopRecycledInv(h: Heap)
    requires Inv(h) && h.recycledRefs != []
    ensures Inv(PopRecycled(h))
  {
    hide BlockOn, PageOf, BlockType, PageRefs, FreeLists, Chunks, Lives;
    var h', r := PopRecycled(h), h.recycledHead;
    assert r == h.recycledRefs[0] && h.recycledRefs[0] in h.recycledRefs;
    ChainPop(h.m, r, h.recycledRefs, NEXT);
    ListsOfOtherRoles(h.role, h'.role, h.freshRefs, Fresh, r);
    forall k: nat | k < NSIZES ensures SizeList(h', k) {
      assert SizeList(h, k);
      ListsOfOtherRoles(h.role, h'.role, h.inUse[k], InUse(k), r);
    }
    forall x | x in h.live ensures h.live[x] != Small(r) { NoLiveBlocksUnlessInUse(h, r, x); }
    RefStepInv(h, h', r);
  }

  ghost function PopFresh(h: Heap): Heap
    requires Inv(h) && h.freshRefs != []
  {
    h.(freshHead := Word(h, h.freshHead + NEXT), freshRefs := h.freshRefs[1..],
       role := h.role[h.freshHead := Held])
  }

  lemma PopFreshInv(h: Heap)
    requires Inv(h) && h.freshRefs != []
    ensures Inv(PopFresh(h)) && PageOfRef(PopFresh(h), h.freshHead) == 0
  {
    hide BlockOn, PageOf, BlockType, FreeLists, Chunks, Lives;
    var h', r := PopFresh(h), h.freshHead;
    assert r == h.freshRefs[0] && h.freshRefs[0] in h.freshRefs;
    ChainPop(h.m, r, h.freshRefs, NEXT);
    ListsOfOtherRoles(h.role, h'.role, h.recycledRefs, Recycled, r);
    forall k: nat | k < NSIZES ensures SizeList(h', k) {
      assert SizeList(h, k);
      ListsOfOtherRoles(h.role, h'.role, h.inUse[k], InUse(k), r);
    }
    forall x | x in h.live ensures h.live[x] != Small(r) { NoLiveBlocksUnlessInUse(h, r, x); }
    RefStepInv(h, h', r);
    assert PageRefOk(h, r);
    EmptyWordHasNoPage();
  }

  // ------------------------------------------------------------ recycling

  /** A held pageref goes to the front of the recycled list, with whatever page it has. */
  ghost function Recycle(h: Heap, r: int): Heap
    requires Inv(h) && r in h.role && h.role[r] == Held
  {
    RefWordsInHeap(h, r);
    h.(m := h.m[r + NEXT := h.recycledHead], recycledHead := r, recycledRefs := [r] + h.recycledRefs,
       role := h.role[r := Recycled])
  }

  /** Writing the link of `r` disturbs no list that `r` is not on. */
  lemma LinkWriteFrame(h: Heap, h': Heap, r: int, head: int, s: seq<int>)
    requires Chain(h.m, head, s, NEXT) && |h'.m| == |h.m| && r !in s
    requires forall w {:trigger Same(h, h', w)} :: w != r + NEXT ==> Same(h, h', w)
    ensures Chain(h'.m, head, s, NEXT)
  {
    ChainSame(h, h', head, s, NEXT);
  }

  lemma RecycleInv(h: Heap, r: int)
    requires Inv(h) && r in h.role && h.role[r] == Held
    ensures Inv(Recycle(h, r))
  {
    hide BlockOn, PageOf, BlockType, PageRefs, FreeLists, Chunks, Lives;
    var h' := Recycle(h, r);
    RefWordsInHeap(h, r);
    assert forall w {:trigger Same(h, h', w)} :: w != r + NEXT ==> Same(h, h', w);
    forall c | c in h.recycledRefs ensures h'.m[c + NEXT] == h.m[c + NEXT] {
      RefWordsInHeap(h, c);
    }
    ChainPush(h.m, h'.m, h.recycledHead, h.recycledRefs, NEXT, r);
    LinkWriteFrame(h, h', r, h.freshHead, h.freshRefs);
    ListsOfOtherRoles(h.role, h'.role, h.freshRefs, Fresh, r);
    forall k: nat | k < NSIZES ensures SizeList(h', k) {
      assert SizeList(h, k);
      LinkWriteFrame(h, h', r, h.sizebases[k], h.inUse[k]);
      ListsOfOtherRoles(h.role, h'.role, h.inUse[k], InUse(k), r);
    }
    forall x | x in h.live ensures h.live[x] != Small(r) { NoLiveBlocksUnlessInUse(h, r, x); }
    RefStepInv(h, h', r);
  }

  // ------------------------------------------------------------ unlinking from a size list

  /** The pageref at position `i` of size list `k` is taken off it and held. */
  ghost function Detach(h: Heap, k: nat, i: nat): Heap
    requires Inv(h) && k < NSIZES && i < |h.inUse[k]|
  {
    assert SizeList(h, k);
    var s := h.inUse[k];
    h.(m := UnlinkMemory(h.m, s, NEXT, i),
       sizebases := h.sizebases[k := UnlinkHead(h.m, h.sizebases[k], s, NEXT, i)],
       inUse := h.inUse[k := Without(s, i)],
       role := h.role[s[i] := Held])
  }

  lemma DetachSame(h: Heap, k: nat, i: nat, w: int)
    requires Inv(h) && k < NSIZES && i < |h.inUse[k]|
    requires i == 0 || w != h.inUse[k][i - 1] + NEXT
    ensures Same(h, Detach(h, k, i), w)
  {
    assert SizeList(h, k);
  }

  lemma DetachIsRefStep(h: Heap, k: nat, i: nat)
    requires Inv(h) && k < NSIZES && i < |h.inUse[k]|
    ensures RefStep(h, Detach(h, k, i), h.inUse[k][i])
  {
    hide BlockOn, PageOf, BlockType, PageRefs, FreeLists, Chunks, Lives, Word;
    var h', s := Detach(h, k, i), h.inUse[k];
    assert SizeList(h, k);
    assert s[i] in s;
    if i > 0 { assert s[i - 1] in s; }
    forall w {:trigger Same(h, h', w)} | forall q :: q in h.role ==> w != q + NEXT ensures Same(h, h', w) {
      DetachSame(h, k, i, w);
    }
  }

  lemma DetachOwnList(h: Heap, k: nat, i: nat)
    requires Inv(h) && k < NSIZES && i < |h.inUse[k]|
    ensures Shape(Detach(h, k, i)) ==> SizeList(Detach(h, k, i), k)
  {
    hide BlockOn, PageOf, BlockType, PageRefs, FreeLists, Chunks, Lives;
    assert SizeList(h, k);
    ChainRemove(h.m, h.sizebases[k], h.inUse[k], NEXT, i);
  }

  lemma DetachOtherList(h: Heap, k: nat, i: nat, head: int, t: seq<int>, tag: Role)
    requires Inv(h) && k < NSIZES && i < |h.inUse[k]| && tag != InUse(k) && tag != Held
    requires Chain(h.m, head, t, NEXT) && Lists(h.role, t, tag)
    ensures Chain(Detach(h, k, i).m, head, t, NEXT) && Lists(Detach(h, k, i).role, t, tag)
  {
    hide BlockOn, PageOf, BlockType, PageRefs, FreeLists, Chunks, Lives;
    var h', s := Detach(h, k, i), h.inUse[k];
    assert SizeList(h, k);
    assert s[i] in s && (i > 0 ==> s[i - 1] in s);
    forall c | c in t ensures Same(h, h', c + NEXT) {
      DetachSame(h, k, i, c + NEXT);
    }
    ChainSame(h, h', head, t, NEXT);
    ListsOfOtherRoles(h.role, h'.role, t, tag, s[i]);
  }

  lemma DetachInv(h: Heap, k: nat, i: nat)
    requires Inv(h) && k < NSIZES && i < |h.inUse[k]|
    requires forall x :: x in h.live ==> h.live[x] != Small(h.inUse[k][i])
    ensures Inv(Detach(h, k, i))
  {
    hide BlockOn, PageOf, BlockType, PageRefs, FreeLists, Chunks, Lives, Chain, Lists, Detach;
    var h', r := Detach(h, k, i), h.inUse[k][i];
    DetachIsRefStep(h, k, i);
    DetachOwnList(h, k, i);
    DetachOtherList(h, k, i, h.freshHead, h.freshRefs, Fresh);
    DetachOtherList(h, k, i, h.recycledHead, h.recycledRefs, Recycled);
    DetachRoots(h, k, i);
    if Shape(h') {
      forall j: nat | j < NSIZES ensures SizeList(h', j) {
        if j != k {
          assert SizeList(h, j);
          DetachOtherList(h, k, i, h.sizebases[j], h.inUse[j], InUse(j));
        }
      }
    }
    RefStepInv(h, h', r);
  }

  lemma DetachRoots(h: Heap, k: nat, i: nat)
    requires Inv(h) && k < NSIZES && i < |h.inUse[k]|
    ensures Detach(h, k, i).freshHead == h.freshHead && Detach(h, k, i).freshRefs == h.freshRefs
    ensures Detach(h, k, i).recycledHead == h.recycledHead && Detach(h, k, i).recycledRefs == h.recycledRefs
    ensures forall j: nat :: j < NSIZES && j != k ==>
              Detach(h, k, i).sizebases[j] == h.sizebases[j] && Detach(h, k, i).inUse[j] == h.inUse[j]
    ensures h.inUse[k][i] in Detach(h, k, i).role && Detach(h, k, i).role[h.inUse[k][i]] == Held && Detach(h, k, i).hi == h.hi
  {
  }
}
