/** The steps that change what a superblock or a heap counts: a new superblock, a change of
    heap, a block handed out, a block taken back. Each keeps bins, maps and books. */
module ArenaSteps {
  import opened PageLayout
  import opened SetSums
  import opened ArenaState
  import opened BinSteps

  /** A step that leaves the links alone leaves the bins alone. */
  lemma BinsKept(a: Arena, a': Arena)
    requires Bins(a) && a'.first == a.first && a'.bins == a.bins && a'.loc == a.loc
    requires |a'.alloc| == |a'.used| == |a.used|
    requires forall p :: p in a.sb ==> p in a'.sb && a'.sb[p].next == a.sb[p].next && a'.sb[p].prev == a.sb[p].prev
    ensures Bins(a')
  {
    forall s | s in a'.bins ensures BinOk(a'.sb, a'.first[s], a'.bins[s]) {
      assert BinOk(a.sb, a.first[s], a.bins[s]);
      BinFrame(a.sb, a'.sb, a.first[s], a.bins[s]);
    }
  }

  /** A heap whose members and their weights are the same keeps its books. */
  lemma HeapKept(a: Arena, a': Arena, h: nat)
    requires h < |a.used| == |a.alloc| && |a'.used| == |a'.alloc| == |a.used| && HeapOk(a, h)
    requires a'.used[h] == a.used[h] && a'.alloc[h] == a.alloc[h]
    requires Members(a', h) == Members(a, h)
    requires forall p :: p in Members(a, h) ==> Weight(a'.sb[p]) == Weight(a.sb[p])
    ensures HeapOk(a', h)
  {
    WeightsCover(a, h);
    WeightsCover(a', h);
    SumFrame(Members(a, h), Weights(a), Weights(a'));
  }

  // ------------------------------------------------------------ a new superblock

  ghost function FirstBits(n: nat): (s: set<nat>)
    ensures |s| == n && forall i: nat :: i in s <==> i < n
  {
    if n == 0 then {} else FirstBits(n - 1) + {n - 1}
  }

  /** A page becomes a superblock of class `c` that belongs to heap 0 and is on no bin. */
  /** The header of a new superblock of class `c`. */
  ghost function NewHeader(c: nat): Sb
    requires c < SMALL_CLASSES
  {
    Sb(c, FirstBits(Reserved(c)), Reserved(c), 0, 0, 0)
  }

  ghost function Create(a: Arena, p: int, c: nat): Arena
    requires |a.used| > 0 && |a.alloc| > 0 && c < SMALL_CLASSES
  {
    a.(sb := a.sb[p := NewHeader(c)],
       used := a.used[0 := a.used[0] + Reserved(c) * SizeOf(c)],
       alloc := a.alloc[0 := a.alloc[0] + SB_SIZE])
  }

  lemma CreateInv(a: Arena, p: int, c: nat)
    requires Inv(a) && |a.used| > 0 && c < SMALL_CLASSES && p !in a.sb && p > 0
    ensures Inv(Create(a, p, c))
  {
    hide Bin, SizeOf;
    var a' := Create(a, p, c);
    BinsKept(a, a');
    forall q | q in a'.sb ensures SbOk(a', q) {
      if q != p { assert SbOk(a, q); }
    }
    forall q, i | (q, i) in a'.live
      ensures q in a'.sb && a'.sb[q].cls < SMALL_CLASSES && Reserved(a'.sb[q].cls) <= i < Total(a'.sb[q].cls) {
      assert (q, i) in a.live;
    }
    forall h: nat | h < |a'.used| ensures HeapOk(a', h) {
      assert HeapOk(a, h);
      if h == 0 { CreateHeap0(a, p, c); } else {
        assert Members(a', h) == Members(a, h);
        HeapKept(a, a', h);
      }
    }
  }

  lemma CreateHeap0(a: Arena, p: int, c: nat)
    requires |a.alloc| == |a.used| && |a.used| > 0 && c < SMALL_CLASSES && p !in a.sb && HeapOk(a, 0)
    ensures HeapOk(Create(a, p, c), 0)
  {
    hide SizeOf, Reserved;
    var a' := Create(a, p, c);
    WeightsCover(a, 0);
    WeightsCover(a', 0);
    assert Members(a', 0) == Members(a, 0) + {p};
    SumFrame(Members(a, 0), Weights(a), Weights(a'));
    SumAdd(Members(a, 0), Weights(a'), p);
  }

  // ------------------------------------------------------------ a change of heap

  /** Superblock `p` and what it counts move to heap `h`. */
  ghost function Rehome(a: Arena, p: int, h: nat): Arena
    requires p in a.sb && a.sb[p].heap < |a.used| == |a.alloc| && h < |a.used|
  {
    var g, w := a.sb[p].heap, Weight(a.sb[p]);
    a.(sb := a.sb[p := a.sb[p].(heap := h)],
       used := a.used[g := a.used[g] - w][h := a.used[h] + w],
       alloc := a.alloc[g := a.alloc[g] - SB_SIZE][h := a.alloc[h] + SB_SIZE])
  }

  lemma RehomeInv(a: Arena, p: int, h: nat)
    requires Inv(a) && p in a.sb && h < |a.used| && a.sb[p].heap != h
    ensures SbOk(a, p) && Inv(Rehome(a, p, h))
  {
    hide Bin, SizeOf, Reserved, Total;
    assert SbOk(a, p);
    var a', g := Rehome(a, p, h), a.sb[p].heap;
    BinsKept(a, a');
    forall q | q in a'.sb ensures SbOk(a', q) {
      assert SbOk(a, q);
    }
    forall q, i | (q, i) in a'.live
      ensures q in a'.sb && a'.sb[q].cls < SMALL_CLASSES && Reserved(a'.sb[q].cls) <= i < Total(a'.sb[q].cls) {
      assert (q, i) in a.live;
    }
    forall k: nat | k < |a'.used| ensures HeapOk(a', k) {
      assert HeapOk(a, k);
      if k == g { RehomeFrom(a, p, h); } else if k == h { RehomeTo(a, p, h); } else {
        assert Members(a', k) == Members(a, k);
        HeapKept(a, a', k);
      }
    }
  }

  lemma RehomeFrom(a: Arena, p: int, h: nat)
    requires |a.alloc| == |a.used| && p in a.sb && h < |a.used| && a.sb[p].heap != h
    requires a.sb[p].heap < |a.used| && HeapOk(a, a.sb[p].heap)
    ensures HeapOk(Rehome(a, p, h), a.sb[p].heap)
  {
    var a', g := Rehome(a, p, h), a.sb[p].heap;
    WeightsCover(a, g);
    WeightsCover(a', g);
    assert Members(a', g) == Members(a, g) - {p};
    assert Members(a, g) == Members(a', g) + {p};
    SumFrame(Members(a', g), Weights(a), Weights(a'));
    SumRemove(Members(a, g), Weights(a), p);
  }

  lemma RehomeTo(a: Arena, p: int, h: nat)
    requires |a.alloc| == |a.used| && p in a.sb && h < |a.used| && a.sb[p].heap != h
    requires a.sb[p].heap < |a.used| && HeapOk(a, h)
    ensures HeapOk(Rehome(a, p, h), h)
  {
    var a' := Rehome(a, p, h);
    WeightsCover(a, h);
    WeightsCover(a', h);
    assert Members(a', h) == Members(a, h) + {p};
    SumFrame(Members(a, h), Weights(a), Weights(a'));
    SumAdd(Members(a, h), Weights(a'), p);
  }

  // ------------------------------------------------------------ handing out and taking back

  /** The bits of `p` and the counters change by one block of its class. */
  ghost function Recount(a: Arena, p: int, bits: set<nat>, used: int, live: set<(int, nat)>): Arena
    requires p in a.sb && a.sb[p].heap < |a.used| && a.sb[p].cls < NSIZES
  {
    var b := a.sb[p];
    a.(sb := a.sb[p := b.(bits := bits, used := used)],
       used := a.used[b.heap := a.used[b.heap] + (used - b.used) * SizeOf(b.cls)],
       live := live)
  }

  ghost function Occupy(a: Arena, p: int, i: nat): Arena
    requires p in a.sb && a.sb[p].heap < |a.used| && a.sb[p].cls < NSIZES
  {
    Recount(a, p, a.sb[p].bits + {i}, a.sb[p].used + 1, a.live + {(p, i)})
  }

  ghost function Vacate(a: Arena, p: int, i: nat): Arena
    requires p in a.sb && a.sb[p].heap < |a.used| && a.sb[p].cls < NSIZES
  {
    Recount(a, p, a.sb[p].bits - {i}, a.sb[p].used - 1, a.live - {(p, i)})
  }

  lemma RecountBooks(a: Arena, p: int, bits: set<nat>, used: int, live: set<(int, nat)>)
    requires Books(a) && p in a.sb && a.sb[p].heap < |a.used| && a.sb[p].cls < NSIZES
    ensures Books(Recount(a, p, bits, used, live))
  {
    hide SizeOf;
    var a', g := Recount(a, p, bits, used, live), a.sb[p].heap;
    forall h: nat | h < |a'.used| ensures HeapOk(a', h) {
      assert HeapOk(a, h);
      if h == g { RecountHeap(a, p, bits, used, live); } else {
        assert Members(a', h) == Members(a, h);
        HeapKept(a, a', h);
      }
    }
  }

  lemma RecountHeap(a: Arena, p: int, bits: set<nat>, used: int, live: set<(int, nat)>)
    requires |a.alloc| == |a.used| && p in a.sb && a.sb[p].heap < |a.used| && a.sb[p].cls < NSIZES
    requires HeapOk(a, a.sb[p].heap)
    ensures HeapOk(Recount(a, p, bits, used, live), a.sb[p].heap)
  {
    hide SizeOf;
    var a', g := Recount(a, p, bits, used, live), a.sb[p].heap;
    var rest := Members(a, g) - {p};
    WeightsCover(a, g);
    WeightsCover(a', g);
    assert Members(a', g) == Members(a, g);
    SumRemove(Members(a, g), Weights(a), p);
    SumRemove(Members(a, g), Weights(a'), p);
    SumFrame(rest, Weights(a), Weights(a'));
    Distribute(a.sb[p].used, used, SizeOf(a.sb[p].cls));
  }

  lemma Distribute(x: int, y: int, z: int)
    ensures y * z == x * z + (y - x) * z
  {
  }

  lemma OccupyInv(a: Arena, p: int, i: nat)
    requires Inv(a) && p in a.sb && SbOk(a, p) && i !in a.sb[p].bits && i < Total(a.sb[p].cls)
    ensures Inv(Occupy(a, p, i))
  {
    hide Bin, SizeOf, Total;
    var a' := Occupy(a, p, i);
    BinsKept(a, a');
    RecountBooks(a, p, a.sb[p].bits + {i}, a.sb[p].used + 1, a.live + {(p, i)});
    forall q | q in a'.sb ensures SbOk(a', q) {
      assert SbOk(a, q);
    }
    forall q, j | (q, j) in a'.live
      ensures q in a'.sb && a'.sb[q].cls < SMALL_CLASSES && Reserved(a'.sb[q].cls) <= j < Total(a'.sb[q].cls) {
      if (q, j) != (p, i) { assert (q, j) in a.live; } else { assert !Header(a.sb[p].cls, i); }
    }
  }

  lemma VacateInv(a: Arena, p: int, i: nat)
    requires Inv(a) && (p, i) in a.live
    ensures p in a.sb && SbOk(a, p) && i in a.sb[p].bits && Inv(Vacate(a, p, i))
  {
    hide Bin, SizeOf, Total;
    assert SbOk(a, p);
    assert !Header(a.sb[p].cls, i);
    var a' := Vacate(a, p, i);
    BinsKept(a, a');
    RecountBooks(a, p, a.sb[p].bits - {i}, a.sb[p].used - 1, a.live - {(p, i)});
    forall q | q in a'.sb ensures SbOk(a', q) {
      assert SbOk(a, q);
    }
    forall q, j | (q, j) in a'.live
      ensures q in a'.sb && a'.sb[q].cls < SMALL_CLASSES && Reserved(a'.sb[q].cls) <= j < Total(a'.sb[q].cls) {
      assert (q, j) in a.live;
    }
  }
}
