/** What the invariant of the superblock allocator means: live blocks are private, the
    counters add up, and the search that follows the emptiness test cannot come up empty. */
module ArenaSafety {
  import opened Sequences
  import opened PageLayout
  import opened SetSums
  import opened ArenaState
  import opened ArenaSteps

  /** The byte address of block `i` of the superblock on page `p`. */
  function Address(p: int, c: nat, i: int): int
    requires c < NSIZES
  {
    SB_SIZE * p + WORD_BYTES * Scale(c, i)
  }

  /** From an address alone `mm_free` gets back the page, and with the class of that page's
      superblock the block number. */
  lemma AddressRoundTrip(p: int, c: nat, i: int)
    requires c < NSIZES && 0 <= i < Total(c)
    ensures var a := Address(p, c, i);
            a / SB_SIZE == p && (a % SB_SIZE) / SizeOf(c) == i && a + SizeOf(c) <= SB_SIZE * (p + 1)
  {
    hide Scale;
    var w := Scale(c, i);
    ScaleSteps(c, i, BlocksPerPage(c));
    ScaleSteps(c, 0, i);
    SplitAddress(p, w);
    BytesToBlock(c, i);
  }

  lemma SplitAddress(p: int, w: int)
    requires 0 <= w < PAGE_WORDS
    ensures (SB_SIZE * p + WORD_BYTES * w) / SB_SIZE == p && (SB_SIZE * p + WORD_BYTES * w) % SB_SIZE == WORD_BYTES * w
  {
  }

  lemma BytesToBlock(c: nat, i: int)
    requires c < NSIZES && 0 <= i
    ensures (WORD_BYTES * Scale(c, i)) / SizeOf(c) == i
  {
    ScaleInBytes(c, i);
  }

  /** Two live blocks share no byte, and none covers a byte of a header. */
  lemma LiveBlocksPrivate(a: Arena, p: int, i: nat, q: int, j: nat, x: int)
    requires Inv(a) && (p, i) in a.live && p in a.sb
    requires var d := Address(p, a.sb[p].cls, i); d <= x < d + SizeOf(a.sb[p].cls)
    ensures SB_SIZE * p + HEADER_BYTES <= x < SB_SIZE * (p + 1)
    ensures (q, j) in a.live && (p, i) != (q, j) ==>
              q in a.sb && var e := Address(q, a.sb[q].cls, j); !(e <= x < e + SizeOf(a.sb[q].cls))
  {
    hide Bins, Books, Scale, SizeOf;
    LiveBlockBounds(a, p, i);
    if (q, j) in a.live && (p, i) != (q, j) {
      LiveBlockBounds(a, q, j);
      if p == q {
        ScaleSteps(a.sb[p].cls, i, j);
        ScaleSteps(a.sb[p].cls, j, i);
      }
    }
  }

  lemma LiveBlockBounds(a: Arena, p: int, i: nat)
    requires Inv(a) && (p, i) in a.live
    ensures p in a.sb && a.sb[p].cls < SMALL_CLASSES
    ensures var d := Address(p, a.sb[p].cls, i);
            SB_SIZE * p + HEADER_BYTES <= d && d + SizeOf(a.sb[p].cls) <= SB_SIZE * (p + 1)
  {
    hide Bins, Books, Scale;
    assert SbOk(a, p);
    var c := a.sb[p].cls;
    AddressRoundTrip(p, c, i);
    HeaderBelow(c, i);
  }

  lemma HeaderBelow(c: nat, i: int)
    requires c < SMALL_CLASSES && Reserved(c) <= i
    ensures HEADER_BYTES <= WORD_BYTES * Scale(c, i)
  {
  }

  // ------------------------------------------------------------ bins

  /** A superblock never has more blocks in use than it has, and always its header blocks. */
  lemma UsedBounds(a: Arena, p: int)
    requires Inv(a) && p in a.sb
    ensures SbOk(a, p) && Reserved(a.sb[p].cls) <= a.sb[p].used <= Total(a.sb[p].cls)
    ensures a.sb[p].used == Total(a.sb[p].cls) <==> forall i: nat :: i < Total(a.sb[p].cls) ==> i in a.sb[p].bits
    ensures forall i: nat :: i in a.sb[p].bits ==> i < Total(a.sb[p].cls)
  {
    hide Bins, Books, SizeOf;
    assert SbOk(a, p);
    var b := a.sb[p];
    var all, hdr := FirstBits(Total(b.cls)), FirstBits(Reserved(b.cls));
    forall i: nat | i in b.bits ensures i < Total(b.cls) {
      if !Header(b.cls, i) { assert (p, i) in a.live; }
    }
    assert forall i: nat :: i in hdr ==> Header(b.cls, i);
    SubsetSize(b.bits, all);
    SubsetSize(hdr, b.bits);
  }

  lemma TimesMonotone(x: int, y: int, n: nat)
    requires x <= y
    ensures x * n <= y * n
  {
  }

  /** The bin `b` holds exactly the superblocks from `(b - 1)` quarters to below `b` quarters full. */
  lemma BinIsQuarter(used: int, total: int, b: int)
    requires 0 <= used && total > 0
    ensures b == Bin(used, total) <==> (b - 1) * total <= 4 * used < b * total
  {
    var q := 4 * used / total;
    assert q * total <= 4 * used < q * total + total;
    if b <= q { TimesMonotone(b, q, total); }
    if q + 1 <= b - 1 { TimesMonotone(q + 1, b - 1, total); }
  }

  /** Bins run from 1 to 5, and 5 holds exactly the full superblocks. */
  lemma BinRange(used: int, total: int)
    requires 0 <= used <= total && total > 0
    ensures 1 <= Bin(used, total) <= NUM_BINS - 1
    ensures Bin(used, total) == NUM_BINS - 1 <==> used == total
    ensures Bin(used, total) == 1 <==> FULLNESS * used < total
  {
    var q := FULLNESS * used / total;
    assert q * total <= FULLNESS * used < q * total + total;
    if q >= FULLNESS { assert q * total >= FULLNESS * total; }
    if q >= 1 { assert q * total >= total; }
  }

  /** Between calls bin 0 of every heap and class is empty and bin 5 holds exactly the full
      superblocks, so the search never needs to look there. */
  lemma BinsBetweenCalls(a: Arena, s: Slot, p: int)
    requires Settled(a) && s in a.bins && p in a.bins[s]
    ensures p in a.sb && a.sb[p].heap == s.h && a.sb[p].cls == s.c && 1 <= s.f
    ensures s.f == NUM_BINS - 1 <==> a.sb[p].used == Total(s.c)
    ensures s.f == 1 <==> FULLNESS * a.sb[p].used < Total(s.c)
  {
    assert Placed(a, p);
    UsedBounds(a, p);
    BinRange(a.sb[p].used, Total(a.sb[p].cls));
  }

  // ------------------------------------------------------------ books

  /** The space of all heaps together is that of all superblocks. */
  ghost function SpaceOfHeaps(a: Arena, n: nat): int
    requires n <= |a.alloc|
  {
    if n == 0 then 0 else SpaceOfHeaps(a, n - 1) + a.alloc[n - 1]
  }

  ghost function MembersBelow(a: Arena, n: nat): set<int> {
    set p | p in a.sb && a.sb[p].heap < n
  }

  lemma NoneBelowZero(a: Arena)
    ensures MembersBelow(a, 0) == {}
  {
    forall p | p in a.sb ensures a.sb[p].heap >= 0 {
      var n: nat := a.sb[p].heap;
    }
  }

  lemma {:induction false} SpaceBelow(a: Arena, n: nat)
    requires Inv(a) && n <= |a.alloc|
    ensures SpaceOfHeaps(a, n) == SB_SIZE * |MembersBelow(a, n)|
  {
    if n == 0 {
      NoneBelowZero(a);
    } else {
      SpaceBelow(a, n - 1);
      assert HeapOk(a, n - 1);
      assert MembersBelow(a, n) == MembersBelow(a, n - 1) + Members(a, n - 1);
      assert MembersBelow(a, n - 1) !! Members(a, n - 1);
    }
  }

  lemma SpaceConserved(a: Arena)
    requires Inv(a)
    ensures SpaceOfHeaps(a, |a.alloc|) == SB_SIZE * |a.sb|
  {
    SpaceBelow(a, |a.alloc|);
    forall p | p in a.sb ensures p in MembersBelow(a, |a.alloc|) {
      assert SbOk(a, p);
    }
    assert MembersBelow(a, |a.alloc|) == a.sb.Keys;
  }

  ghost function UseOfHeaps(a: Arena, n: nat): int
    requires n <= |a.used|
  {
    if n == 0 then 0 else UseOfHeaps(a, n - 1) + a.used[n - 1]
  }

  lemma {:induction false} UseBelow(a: Arena, n: nat)
    requires Inv(a) && n <= |a.used|
    ensures Covers(MembersBelow(a, n), Weights(a))
    ensures UseOfHeaps(a, n) == Sum(MembersBelow(a, n), Weights(a))
  {
    if n == 0 {
      NoneBelowZero(a);
    } else {
      UseBelow(a, n - 1);
      assert HeapOk(a, n - 1);
      WeightsCover(a, n - 1);
      assert MembersBelow(a, n) == MembersBelow(a, n - 1) + Members(a, n - 1);
      SumUnion(MembersBelow(a, n - 1), Members(a, n - 1), Weights(a));
    }
  }

  lemma {:induction false} SumUnion(s: set<int>, t: set<int>, w: map<int, int>)
    requires Covers(s, w) && Covers(t, w) && s !! t
    ensures Sum(s + t, w) == Sum(s, w) + Sum(t, w)
    decreases t
  {
    if t == {} {
      assert s + t == s;
    } else {
      HasElement(t);
      var x :| x in t;
      SumRemove(t, w, x);
      SumUnion(s, t - {x}, w);
      SumAdd(s + (t - {x}), w, x);
      assert s + (t - {x}) + {x} == s + t;
    }
  }

  lemma UseConserved(a: Arena)
    requires Inv(a)
    ensures Covers(a.sb.Keys, Weights(a)) && UseOfHeaps(a, |a.used|) == Sum(a.sb.Keys, Weights(a))
  {
    UseBelow(a, |a.used|);
    forall p | p in a.sb ensures p in MembersBelow(a, |a.used|) {
      assert SbOk(a, p);
    }
    assert MembersBelow(a, |a.used|) == a.sb.Keys;
  }

  // ------------------------------------------------------------ the emptiness test

  /** A heap whose use is under a quarter of its space has a superblock that is under a
      quarter full, and that superblock is in bin 1 of its class. */
  lemma EmptinessHasTarget(a: Arena, h: nat) returns (p: int)
    requires Settled(a) && h < |a.used| == |a.alloc| && a.used[h] < a.alloc[h] / FULLNESS
    ensures p in a.sb && a.sb[p].heap == h && a.sb[p].cls < NSIZES && FULLNESS * a.sb[p].used < Total(a.sb[p].cls)
    ensures Slot(h, a.sb[p].cls, 1) in a.bins && p in a.bins[Slot(h, a.sb[p].cls, 1)]
  {
    assert HeapOk(a, h);
    WeightsCover(a, h);
    var s, w := Members(a, h), Weights(a);
    if forall q :: q in s ==> SB_SIZE / FULLNESS <= w[q] {
      SumAtLeast(s, w, SB_SIZE / FULLNESS);
      assert false;
    }
    p :| p in s && w[p] < SB_SIZE / FULLNESS;
    UsedBounds(a, p);
    QuarterFull(a.sb[p].cls, a.sb[p].used);
    assert Placed(a, p);
    BinRange(a.sb[p].used, Total(a.sb[p].cls));
    assert p in a.bins[a.loc[p]];
  }

  lemma QuarterFull(c: nat, used: int)
    requires c < NSIZES
    ensures used * SizeOf(c) < SB_SIZE / FULLNESS <==> FULLNESS * used < Total(c)
  {
  }
}
