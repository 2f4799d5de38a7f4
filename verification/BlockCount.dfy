/** Counting the blocks of a page: a free list as long as the page has blocks leaves no live
    block, and a shorter one leaves at least one. */
module BlockCount {
  import opened Sequences
  import opened PageLayout
  import opened HeapState

  /** The first `n` blocks of type `k` of page `p`. */
  ghost function FirstBlocks(p: int, k: nat, n: nat): set<int>
    requires k < NSIZES
  {
    if n == 0 then {} else FirstBlocks(p, k, n - 1) + {NthBlock(p, k, n - 1)}
  }

  lemma {:induction false} FirstBlocksBelow(p: int, k: nat, n: nat, a: int)
    requires k < NSIZES && a in FirstBlocks(p, k, n)
    ensures a < NthBlock(p, k, n)
  {
    hide Scale;
    ScaleSteps(k, 0, n - 1);
    if a in FirstBlocks(p, k, n - 1) {
      FirstBlocksBelow(p, k, n - 1, a);
    }
  }

  lemma {:induction false} FirstBlocksSize(p: int, k: nat, n: nat)
    requires k < NSIZES
    ensures |FirstBlocks(p, k, n)| == n
  {
    hide NthBlock;
    if n > 0 {
      FirstBlocksSize(p, k, n - 1);
      if NthBlock(p, k, n - 1) in FirstBlocks(p, k, n - 1) {
        FirstBlocksBelow(p, k, n - 1, NthBlock(p, k, n - 1));
      }
    }
  }

  lemma {:induction false} FirstBlocksAll(p: int, k: nat, n: nat, j: nat)
    requires k < NSIZES && j < n
    ensures NthBlock(p, k, j) in FirstBlocks(p, k, n)
  {
    hide NthBlock;
    if j < n - 1 {
      FirstBlocksAll(p, k, n - 1, j);
    }
  }

  lemma {:induction false} FirstBlocksOn(p: int, k: nat, n: nat, a: int)
    requires k < NSIZES && n <= BlocksPerPage(k) && a in FirstBlocks(p, k, n)
    ensures BlockOn(a, p, k)
  {
    if a in FirstBlocks(p, k, n - 1) {
      FirstBlocksOn(p, k, n - 1, a);
    } else {
      NthBlockOn(p, k, n - 1);
    }
  }

  /** All blocks of a page are its first `BlocksPerPage`. */
  lemma AllBlocks(p: int, k: nat, a: int)
    requires k < NSIZES
    ensures BlockOn(a, p, k) <==> a in FirstBlocks(p, k, BlocksPerPage(k))
  {
    if BlockOn(a, p, k) {
      BlockIndexInRange(a, p, k);
      FirstBlocksAll(p, k, BlocksPerPage(k), BlockIndex(a, p, k));
    }
    if a in FirstBlocks(p, k, BlocksPerPage(k)) {
      FirstBlocksOn(p, k, BlocksPerPage(k), a);
    }
  }

  ghost function Elements(s: seq<int>): set<int> {
    set c | c in s
  }

  lemma {:induction false} DistinctSize(s: seq<int>)
    requires Distinct(s)
    ensures |Elements(s)| == |s|
  {
    if s != [] {
      var c, t := s[0], s[1..];
      assert s == [c] + t;
      assert c !in t;
      assert Distinct(t);
      hide Distinct;
      DistinctSize(t);
      assert Elements(s) == {c} + Elements(t);
    }
  }

  /** The free list of an in-use page is full exactly when no block of the page is live. */
  lemma FullIffNoneLive(h: Heap, r: int)
    requires FreeListOk(h, r)
    ensures |h.flist[r]| <= BlocksPerPage(h.role[r].k)
    ensures |h.flist[r]| == BlocksPerPage(h.role[r].k)
            <==> forall a :: BlockOn(a, PageOfRef(h, r), h.role[r].k) ==> a !in h.live
  {
    hide BlockOn, PageOf;
    var p, k, s := PageOfRef(h, r), h.role[r].k, h.flist[r];
    var all := FirstBlocks(p, k, BlocksPerPage(k));
    FirstBlocksSize(p, k, BlocksPerPage(k));
    DistinctSize(s);
    forall a ensures BlockOn(a, p, k) <==> a in all { AllBlocks(p, k, a); }
    assert Elements(s) <= all;
    SubsetSize(Elements(s), all);
    if forall a :: BlockOn(a, p, k) ==> a !in h.live {
      forall a | a in all ensures a in Elements(s) {
        AllBlocks(p, k, a);
      }
      assert Elements(s) == all;
    }
  }

  /** Between calls every in-use page holds a live block. */
  lemma InUsePageHasLiveBlock(h: Heap, r: int) returns (x: int)
    requires Settled(h) && r in h.role && h.role[r].InUse?
    ensures x in h.live && h.role[r].k < NSIZES && BlockOn(x, PageOfRef(h, r), h.role[r].k)
  {
    hide BlockOn, PageOf;
    assert FreeListOk(h, r) && PartlyUsed(h, r);
    FullIffNoneLive(h, r);
    x :| BlockOn(x, PageOfRef(h, r), h.role[r].k) && x in h.live;
  }
}
