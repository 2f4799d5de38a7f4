/** When a free gives a superblock back to heap 0, told by the heap's superblocks and the bytes
    in use in them. */
module ArenaReturns {
  import opened PageLayout
  import opened ArenaState
  import opened BinSteps
  import opened ArenaSteps
  import opened ArenaSafety
  import opened ArenaCalls
  import opened SetSums

  /** The bytes in use in the superblocks of heap `h`. */
  ghost function InUse(a: Arena, h: nat): int {
    WeightsCover(a, h);
    Sum(Members(a, h), Weights(a))
  }

  /** Once a block of `p` is freed its heap, which is not heap 0, uses less than a quarter of its
      space and less than the space of all but eight of its superblocks. */
  ghost predicate Due(a: Arena, p: int)
    requires p in a.sb && a.sb[p].cls < NSIZES
  {
    var h := a.sb[p].heap;
    var n, left := |Members(a, h)|, InUse(a, h) - SizeOf(a.sb[p].cls);
    h != 0 && 4 * left < 4096 * n && left < 4096 * (n - 8)
  }

  /** If it is due, exactly superblock `q` of that heap goes to heap 0; otherwise none moves. */
  ghost predicate GivesBack(a: Arena, p: int, q: int, t: Arena)
    requires p in a.sb && a.sb[p].cls < NSIZES
  {
    && t.sb.Keys == a.sb.Keys
    && (forall r :: r in a.sb && r in t.sb && !(Due(a, p) && r == q) ==> t.sb[r].heap == a.sb[r].heap)
    && (Due(a, p) ==> q in a.sb && a.sb[q].heap == a.sb[p].heap && q in t.sb && t.sb[q].heap == 0)
  }

  /** Moving to another bin of the same heap leaves the counters. */
  lemma PlaceBooks(a: Arena, p: int)
    requires Inv(a) && p in a.sb && p in a.loc && a.sb[p].heap == a.loc[p].h
    ensures Place(a, p).used == a.used && Place(a, p).alloc == a.alloc && Place(a, p).sb.Keys == a.sb.Keys
  {
    RightSlotExists(a, p);
    var d := RightSlot(a.sb[p]);
    if a.loc[p] != d {
      RelinkInv(a, p, d);
      TransferInv(a, p, d);
      hide Inv, Unlink, Push, UnlinkNodes, PushNodes;
    }
  }

  /** Before the emptiness test no superblock has changed its heap, and the heap's counters are
      what is in use and its space. */
  lemma FreedBooks(a: Arena, p: int, i: nat)
    requires Settled(a) && (p, i) in a.live
    ensures p in a.sb && a.sb[p].cls < NSIZES
    ensures var f, h := Freed(a, p, i), a.sb[p].heap;
            && f.sb.Keys == a.sb.Keys && (forall r :: r in a.sb && r in f.sb ==> f.sb[r].heap == a.sb[r].heap)
            && h < |f.used| == |f.alloc|
            && f.used[h] == InUse(a, h) - SizeOf(a.sb[p].cls) && f.alloc[h] == 4096 * |Members(a, h)|
  {
    FreedFacts(a, p, i);
    var v, h := Vacate(a, p, i), a.sb[p].heap;
    PlaceBooks(v, p);
    PlaceHeap(v, p);
    PlaceTouches(v, p);
    VacatedBooks(a, p, i);
    hide Inv, Bin, Place, SizeOf, InUse;
    var f := Freed(a, p, i);
    forall r | r in a.sb && r in f.sb ensures f.sb[r].heap == a.sb[r].heap {
      if r != p { assert SameButLinks(v.sb[r], f.sb[r]); }
    }
  }

  lemma VacatedBooks(a: Arena, p: int, i: nat)
    requires Inv(a) && p in a.sb && a.sb[p].heap < |a.used| && a.sb[p].cls < NSIZES
    ensures var v, h := Vacate(a, p, i), a.sb[p].heap;
            && |v.used| == |a.used| == |v.alloc| && v.sb.Keys == a.sb.Keys
            && v.used[h] == InUse(a, h) - SizeOf(a.sb[p].cls) && v.alloc[h] == 4096 * |Members(a, h)|
  {
    assert HeapOk(a, a.sb[p].heap);
    hide Maps, Bins;
  }

  lemma FreeGivesBack(a: Arena, p: int, i: nat, q: int, t: Arena)
    requires Frees(a, p, i, q, t)
    ensures a.sb[p].cls < NSIZES && GivesBack(a, p, q, t)
  {
    var f, h := Freed(a, p, i), a.sb[p].heap;
    FreedBooks(a, p, i);
    assert MustReturn(f, h) <==> Due(a, p);
    if MustReturn(f, h) {
      ReturnMoves(f, h, q, t);
      assert q in f.sb && f.sb[q].heap == h;
    } else {
      assert t == f;
    }
    hide Freed, Due, InUse, MustReturn, Returns, Inv;
  }

  lemma ReturnMoves(v: Arena, h: nat, q: int, t: Arena)
    requires Returns(v, h, q, t)
    ensures t.sb.Keys == v.sb.Keys && q in t.sb && t.sb[q].heap == 0
    ensures forall r :: r in v.sb && r in t.sb && r != q ==> t.sb[r].heap == v.sb[r].heap
  {
    var d := Slot(0, v.sb[q].cls, 1);
    TransferInv(v, q, d);
    TransferTouches(v, q, d);
    hide Inv, Transfer;
    forall r | r in v.sb && r in t.sb && r != q ensures t.sb[r].heap == v.sb[r].heap {
      assert SameButLinks(v.sb[r], t.sb[r]);
    }
  }

  /** A heap of at most eight superblocks gives none back. */
  lemma EightStay(a: Arena, p: int, i: nat)
    requires Settled(a) && (p, i) in a.live && p in a.sb && a.sb[p].cls < NSIZES
    requires |Members(a, a.sb[p].heap)| <= 8
    ensures !Due(a, p)
  {
    FreedBooks(a, p, i);
    FreedFacts(a, p, i);
    NothingNegative(Freed(a, p, i), a.sb[p].heap);
    hide Inv, Freed, InUse, SizeOf;
  }

  lemma NothingNegative(a: Arena, h: nat)
    requires Inv(a) && h < |a.used|
    ensures 0 <= a.used[h]
  {
    assert HeapOk(a, h);
    forall p | p in Members(a, h) ensures 0 <= Weights(a)[p] {
      UsedBounds(a, p);
    }
    SumAtLeast(Members(a, h), Weights(a), 0);
  }
}
