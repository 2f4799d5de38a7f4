/** Moving a superblock between bins and heaps, and how the calls leave everything placed. */
module ArenaCalls {
  import opened PageLayout
  import opened ArenaState
  import opened BinSteps
  import opened ArenaSteps
  import opened ArenaSafety

  /** `transfer_bins`: off its bin, to the front of bin `d`, and if that is another heap's,
      with all it counts. */
  ghost function Transfer(a: Arena, p: int, d: Slot): Arena
    requires Inv(a) && p in a.loc && d in a.bins
  {
    var u := Unlink(a, p);
    UnlinkOnlyLinks(a.sb, p);
    var v := Push(u, p, d);
    PushOnlyLinks(u.sb, p, u.first[d]);
    SameHeap(a, p, d);
    if d.h != a.loc[p].h then Rehome(v, p, d.h) else v
  }

  lemma SameHeap(a: Arena, p: int, d: Slot)
    requires Inv(a) && p in a.loc && d in a.bins
    ensures p in a.sb && p in UnlinkNodes(a.sb, p)
    ensures d in Unlink(a, p).first && d in Unlink(a, p).bins
    ensures var v := Push(Unlink(a, p), p, d);
            p in v.sb && SameButLinks(a.sb[p], v.sb[p]) && v.sb[p].heap < |v.used| == |v.alloc| && d.h < |v.used|
  {
    hide Maps, Books, Total, Reserved, SizeOf;
    UnlinkOnlyLinks(a.sb, p);
    PushOnlyLinks(UnlinkNodes(a.sb, p), p, Unlink(a, p).first[d]);
    HeapInRange(a, p);
  }

  lemma HeapInRange(a: Arena, p: int)
    requires Inv(a) && p in a.sb
    ensures a.sb[p].heap < |a.used| && a.sb[p].cls < SMALL_CLASSES && p > 0
  {
    assert SbOk(a, p);
  }

  /** The part of a transfer that only relinks. */
  lemma RelinkInv(a: Arena, p: int, d: Slot)
    requires Inv(a) && p in a.loc && d in a.bins
    ensures var v := Push(Unlink(a, p), p, d);
            Inv(v) && OnlyLinks(a.sb, v.sb) && v.live == a.live && v.used == a.used && v.alloc == a.alloc
            && v.loc == a.loc[p := d]
  {
    hide Maps, Books, BinOk, UnlinkNodes, PushNodes;
    var u := Unlink(a, p);
    HeapInRange(a, p);
    UnlinkBins(a, p);
    UnlinkOnlyLinks(a.sb, p);
    OnlyLinksKeep(a, u);
    PushBins(u, p, d);
    PushOnlyLinks(u.sb, p, u.first[d]);
    OnlyLinksKeep(u, Push(u, p, d));
    OnlyLinksChain(a.sb, u.sb, Push(u, p, d).sb);
  }

  lemma OnlyLinksChain(x: map<int, Sb>, y: map<int, Sb>, z: map<int, Sb>)
    requires OnlyLinks(x, y) && OnlyLinks(y, z)
    ensures OnlyLinks(x, z)
  {
    forall p | p in x ensures SameButLinks(x[p], z[p]) {
      assert SameButLinks(x[p], y[p]) && SameButLinks(y[p], z[p]);
    }
  }

  lemma TransferInv(a: Arena, p: int, d: Slot)
    requires Inv(a) && p in a.loc && d in a.bins && p in a.sb && a.sb[p].heap == a.loc[p].h
    ensures var t := Transfer(a, p, d);
            && Inv(t) && t.live == a.live && t.loc == a.loc[p := d] && t.sb.Keys == a.sb.Keys
            && |t.used| == |a.used| && t.bins.Keys == a.bins.Keys
            && SameButLinks(a.sb[p].(heap := d.h), t.sb[p])
            && (forall q {:trigger t.sb[q]} :: q in a.sb && q != p ==> SameButLinks(a.sb[q], t.sb[q]))
  {
    hide Maps, Books, BinOk, UnlinkNodes, PushNodes, Weight;
    SameHeap(a, p, d);
    RelinkInv(a, p, d);
    var v := Push(Unlink(a, p), p, d);
    assert SameButLinks(a.sb[p], v.sb[p]);
    if d.h != a.loc[p].h {
      RehomeInv(v, p, d.h);
    }
    var t := Transfer(a, p, d);
    forall q | q in a.sb && q != p ensures SameButLinks(a.sb[q], t.sb[q]) {
      assert SameButLinks(a.sb[q], v.sb[q]);
    }
  }

  ghost function RightSlot(b: Sb): Slot
    requires b.cls < NSIZES && 0 <= b.used
  {
    BinNonNegative(b.used, Total(b.cls));
    Slot(b.heap, b.cls, Bin(b.used, Total(b.cls)))
  }

  lemma BinNonNegative(used: int, total: int)
    requires 0 <= used && total > 0
    ensures 0 <= Bin(used, total)
  {
  }

  lemma RightSlotExists(a: Arena, p: int)
    requires Inv(a) && p in a.sb
    ensures a.sb[p].cls < NSIZES && 0 <= a.sb[p].used && RightSlot(a.sb[p]) in a.bins
  {
    hide Books, BinOk, Bin, Total, Reserved;
    UsedBounds(a, p);
    BinRange(a.sb[p].used, Total(a.sb[p].cls));
  }

  /** Whoever is not moved stays placed; the one moved to its right bin is placed. */
  lemma TransferSettles(a: Arena, p: int, d: Slot)
    requires SettledBut(a, p) && p in a.sb && p in a.loc && d in a.bins && a.sb[p].heap == a.loc[p].h
    requires a.sb[p].cls < NSIZES && 0 <= a.sb[p].used && d == RightSlot(a.sb[p].(heap := d.h))
    ensures Settled(Transfer(a, p, d))
  {
    hide Inv, Bin, Total, Transfer, Bins;
    TransferInv(a, p, d);
    var t := Transfer(a, p, d);
    forall q | q in t.sb ensures Placed(t, q) {
      if q != p {
        assert Placed(a, q) && SameButLinks(a.sb[q], t.sb[q]);
      }
    }
  }

  /** A superblock whose counts changed without leaving its bin's range is already placed. */
  lemma StaysPlaced(a: Arena, p: int)
    requires SettledBut(a, p) && p in a.sb && p in a.loc && a.sb[p].cls < NSIZES && 0 <= a.sb[p].used
    requires a.loc[p] == RightSlot(a.sb[p])
    ensures Settled(a)
  {
    hide Inv, Bin, Total;
    assert Placed(a, p);
  }

  lemma RecountSettlesBut(a: Arena, a': Arena, p: int)
    requires SettledBut(a, p) && Inv(a') && p in a.sb && a'.loc == a.loc && a'.sb.Keys == a.sb.Keys
    requires forall q :: q in a.sb && q != p ==> a'.sb[q] == a.sb[q]
    ensures SettledBut(a', p)
  {
    hide Inv, Bin, Total;
    forall q | q in a'.sb && q != p ensures Placed(a', q) {
      assert Placed(a, q);
    }
  }

  lemma SettledIsSettledBut(a: Arena, p: int)
    requires Settled(a)
    ensures SettledBut(a, p)
  {
    hide Inv;
  }

  /** The state after `mm_init`: no superblock, all bins empty. */
  ghost function EmptyArena(space: seq<int>, used: seq<int>): Arena {
    var slots := set h: nat, c: nat, f: nat | h < |used| && c < NSIZES && f < NUM_BINS :: Slot(h, c, f);
    Arena(map[], map s | s in slots :: 0, space, used, map s | s in slots :: [], map[], {})
  }

  lemma EmptyArenaSettled(space: seq<int>, used: seq<int>)
    requires |space| == |used| && forall h :: 0 <= h < |used| ==> space[h] == 0 && used[h] == 0
    ensures Settled(EmptyArena(space, used))
  {
    var a := EmptyArena(space, used);
    forall s ensures s in a.first <==> SlotOk(|a.used|, s) {
      if SlotOk(|a.used|, s) { assert s == Slot(s.h, s.c, s.f); }
    }
    forall h: nat | h < |a.used| ensures HeapOk(a, h) {
      assert Members(a, h) == {};
    }
  }

  /** Superblock `p` moves to its right bin unless it is there already. */
  ghost function Place(a: Arena, p: int): Arena
    requires Inv(a) && p in a.sb && p in a.loc
  {
    RightSlotExists(a, p);
    if a.loc[p] == RightSlot(a.sb[p]) then a else Transfer(a, p, RightSlot(a.sb[p]))
  }

  lemma PlaceSettles(a: Arena, p: int)
    requires SettledBut(a, p) && p in a.sb && p in a.loc && a.sb[p].heap == a.loc[p].h
    ensures Settled(Place(a, p)) && SameShape(a, Place(a, p))
  {
    hide Inv, Bin, Total, Transfer;
    RightSlotExists(a, p);
    if a.loc[p] == RightSlot(a.sb[p]) {
      StaysPlaced(a, p);
    } else {
      TransferInv(a, p, RightSlot(a.sb[p]));
      TransferSettles(a, p, RightSlot(a.sb[p]));
      TransferShape(a, p, RightSlot(a.sb[p]));
    }
  }

  /** The same superblocks with the same classes, bits and live blocks. */
  ghost predicate SameShape(a: Arena, a': Arena) {
    && a'.sb.Keys == a.sb.Keys && a'.live == a.live && |a'.used| == |a.used|
    && forall q {:trigger a'.sb[q]} :: q in a.sb ==> a'.sb[q].cls == a.sb[q].cls && a'.sb[q].bits == a.sb[q].bits
  }

  lemma TransferShape(a: Arena, p: int, d: Slot)
    requires Inv(a) && p in a.loc && d in a.bins && p in a.sb && a.sb[p].heap == a.loc[p].h
    ensures SameShape(a, Transfer(a, p, d))
  {
    hide Inv, Transfer;
    TransferInv(a, p, d);
    var t := Transfer(a, p, d);
    forall q | q in a.sb ensures t.sb[q].cls == a.sb[q].cls && t.sb[q].bits == a.sb[q].bits {
      if q != p { assert SameButLinks(a.sb[q], t.sb[q]); }
    }
  }

  /** All superblocks but `p` keep their heap, class, blocks and counts, and only `p` may be new. */
  ghost predicate OnlyTouches(a: Arena, t: Arena, p: int) {
    && (forall q :: q in a.sb && q != p ==> q in t.sb && SameButLinks(a.sb[q], t.sb[q]))
    && (forall q :: q in t.sb ==> q in a.sb || q == p)
  }

  lemma OnlyTouchesChain(a: Arena, b: Arena, c: Arena, p: int)
    requires OnlyTouches(a, b, p) && OnlyTouches(b, c, p)
    ensures OnlyTouches(a, c, p)
  {
    forall q | q in a.sb && q != p ensures q in c.sb && SameButLinks(a.sb[q], c.sb[q]) {
      assert SameButLinks(a.sb[q], b.sb[q]) && SameButLinks(b.sb[q], c.sb[q]);
    }
  }

  lemma TransferTouches(a: Arena, p: int, d: Slot)
    requires Inv(a) && p in a.loc && d in a.bins && p in a.sb && a.sb[p].heap == a.loc[p].h
    ensures OnlyTouches(a, Transfer(a, p, d), p)
  {
    TransferInv(a, p, d);
    hide Inv, Transfer;
    var t := Transfer(a, p, d);
    forall q | q in a.sb && q != p ensures q in t.sb && SameButLinks(a.sb[q], t.sb[q]) {
      assert t.sb[q] == t.sb[q];
    }
  }

  lemma PlaceTouches(a: Arena, p: int)
    requires Inv(a) && p in a.sb && p in a.loc && a.sb[p].heap == a.loc[p].h
    ensures OnlyTouches(a, Place(a, p), p)
  {
    RightSlotExists(a, p);
    hide Inv, Transfer;
    if a.loc[p] != RightSlot(a.sb[p]) { TransferTouches(a, p, RightSlot(a.sb[p])); }
  }

  /** Handing out a block of `p` and placing `p`. */
  lemma OccupySettles(a: Arena, p: int, i: nat)
    requires SettledBut(a, p) && p in a.sb && p in a.loc && a.loc[p].h == a.sb[p].heap
    requires SbOk(a, p) && i !in a.sb[p].bits && i < Total(a.sb[p].cls)
    ensures var v := Occupy(a, p, i);
            && Inv(v) && p in v.sb && p in v.loc && v.loc == a.loc && v.sb[p].heap == a.sb[p].heap
            && Settled(Place(v, p)) && SameShape(v, Place(v, p))
  {
    hide Inv, Bin, Total;
    OccupyInv(a, p, i);
    RecountSettlesBut(a, Occupy(a, p, i), p);
    PlaceSettles(Occupy(a, p, i), p);
  }

  lemma VacateSettles(a: Arena, p: int, i: nat)
    requires Settled(a) && (p, i) in a.live
    ensures p in a.sb && SbOk(a, p) && i in a.sb[p].bits && p in a.loc && a.loc[p].h == a.sb[p].heap
    ensures var v := Vacate(a, p, i);
            && Inv(v) && p in v.sb && p in v.loc && v.loc == a.loc && v.sb[p].heap == a.sb[p].heap
            && Settled(Place(v, p)) && SameShape(v, Place(v, p))
  {
    hide Inv, Bin, Total;
    VacateInv(a, p, i);
    assert Placed(a, p);
    SettledIsSettledBut(a, p);
    RecountSettlesBut(a, Vacate(a, p, i), p);
    PlaceSettles(Vacate(a, p, i), p);
  }

  /** A new page, listed for the moment in bin 0 of heap 0. */
  ghost function Install(a: Arena, p: int, c: nat): Arena
    requires Inv(a) && |a.used| > 0 && c < SMALL_CLASSES && p !in a.sb && p > 0
  {
    CreateInv(a, p, c);
    SlotHead(a, Slot(0, c, 0));
    Push(Create(a, p, c), p, Slot(0, c, 0))
  }

  lemma InstallInv(a: Arena, p: int, c: nat)
    requires Settled(a) && |a.used| > 0 && c < SMALL_CLASSES && p !in a.sb && p > 0
    ensures var v := Install(a, p, c);
            && SettledBut(v, p) && p in v.sb && v.loc == a.loc[p := Slot(0, c, 0)] && v.live == a.live
            && v.sb[p].cls == c && v.sb[p].used == Reserved(c) && v.sb[p].heap == 0 && |v.used| == |a.used|
            && v.sb.Keys == a.sb.Keys + {p} && v.bins.Keys == a.bins.Keys
            && (forall q {:trigger v.sb[q]} :: q in a.sb ==> SameButLinks(a.sb[q], v.sb[q]))
  {
    hide Maps, Books, BinOk, PushNodes, Bin, Total, Reserved, SizeOf;
    CreateInv(a, p, c);
    var u := Create(a, p, c);
    SlotHead(u, Slot(0, c, 0));
    PushBins(u, p, Slot(0, c, 0));
    PushOnlyLinks(u.sb, p, u.first[Slot(0, c, 0)]);
    var v := Install(a, p, c);
    OnlyLinksKeep(u, v);
    assert SameButLinks(u.sb[p], v.sb[p]);
    forall q | q in a.sb ensures SameButLinks(a.sb[q], v.sb[q]) {
      assert SameButLinks(u.sb[q], v.sb[q]);
    }
    forall q | q in v.sb && q != p ensures Placed(v, q) {
      assert Placed(a, q) && SameButLinks(a.sb[q], v.sb[q]);
    }
  }

  /** A superblock fetched from heap 0 for heap `h` goes to bin 1 there. */
  lemma FetchSettles(a: Arena, p: int, h: nat, c: nat)
    requires SettledBut(a, p) && p in a.sb && p in a.loc && h < |a.used| && c < NSIZES
    requires a.sb[p].heap == a.loc[p].h && a.sb[p].cls == c && FULLNESS * a.sb[p].used < Total(c)
    ensures Slot(h, c, 1) in a.bins
    ensures var t := Transfer(a, p, Slot(h, c, 1));
            Settled(t) && SameShape(a, t) && p in t.loc && t.loc[p] == Slot(h, c, 1) && p in t.sb && t.sb[p].heap == h
            && t.sb[p].used == a.sb[p].used
  {
    hide Maps, Books, BinOk, Bin, Transfer, Reserved, SizeOf;
    UsedBounds(a, p);
    BinRange(a.sb[p].used, Total(c));
    TransferInv(a, p, Slot(h, c, 1));
    TransferSettles(a, p, Slot(h, c, 1));
    TransferShape(a, p, Slot(h, c, 1));
  }

  lemma EmptyBin0(a: Arena, h: nat, c: nat)
    requires Settled(a) && h < |a.used| && c < NSIZES
    ensures Slot(h, c, 0) in a.bins && a.bins[Slot(h, c, 0)] == [] && a.first[Slot(h, c, 0)] == 0
  {
    var s := Slot(h, c, 0);
    assert BinOk(a.sb, a.first[s], a.bins[s]);
    if a.bins[s] != [] {
      assert a.bins[s][0] in a.bins[s];
      BinsBetweenCalls(a, s, a.bins[s][0]);
    }
  }

  /** The bin being empty, slotting a new superblock in only sets the head. */
  lemma InstallSetsHead(a: Arena, p: int, c: nat)
    requires Settled(a) && |a.used| > 0 && c < SMALL_CLASSES && p !in a.sb && p > 0
    ensures var u, v := Create(a, p, c), Install(a, p, c);
            v == u.(first := u.first[Slot(0, c, 0) := p], bins := v.bins, loc := v.loc)
  {
    hide Maps, Books, BinOk, Reserved, SizeOf;
    EmptyBin0(a, 0, c);
    var u := Create(a, p, c);
    assert PushNodes(u.sb, p, 0) == u.sb;
  }

  /** Superblock `p` now serves heap `h`; no live block has moved. */
  ghost predicate Fetched(a: Arena, t: Arena, p: int, h: nat, c: nat)
    requires c < NSIZES
  {
    && Settled(t) && p in t.sb && p in t.loc && t.loc[p] == Slot(h, c, 1)
    && t.sb[p].used < Total(c) && t.sb[p].cls == c && t.sb[p].heap == h
    && t.live == a.live && |t.used| == |a.used|
    && KeepsClasses(a, t) && OnlyTouches(a, t, p)
  }

  /** Every superblock stays, with its size class, so every block stays at its address. */
  ghost predicate KeepsClasses(a: Arena, t: Arena) {
    forall q :: q in a.sb ==> q in t.sb && t.sb[q].cls == a.sb[q].cls
  }

  lemma HeadInBin(a: Arena, d: Slot)
    requires Bins(a) && SlotOk(|a.used|, d)
    ensures d in a.first && d in a.bins && (a.first[d] == 0 <==> a.bins[d] == [])
    ensures a.bins[d] != [] ==> a.first[d] == a.bins[d][0]
    ensures a.first[d] != 0 ==> a.first[d] in a.bins[d] && a.first[d] in a.loc && a.loc[a.first[d]] == d
  {
    assert BinOk(a.sb, a.first[d], a.bins[d]);
    if a.bins[d] != [] { assert a.bins[d][0] in a.bins[d]; }
  }

  lemma FetchReady(a: Arena, p: int, h: nat, c: nat)
    requires Settled(a) && 0 < h < |a.used| && c < NSIZES && p in a.loc && a.loc[p] == Slot(0, c, 1)
    ensures p in a.sb && a.sb[p].heap == 0 && Slot(h, c, 1) in a.bins
    ensures Fetched(a, Transfer(a, p, Slot(h, c, 1)), p, h, c)
  {
    hide Maps, Books, BinOk, Bin, Transfer, Reserved, Total;
    assert p in a.bins[Slot(0, c, 1)];
    BinsBetweenCalls(a, Slot(0, c, 1), p);
    SettledIsSettledBut(a, p);
    FetchSettles(a, p, h, c);
    UsedBounds(a, p);
    TransferTouches(a, p, Slot(h, c, 1));
    hide OnlyTouches;
  }

  lemma InstallReady(a: Arena, p: int, h: nat, c: nat)
    requires Settled(a) && 0 < h < |a.used| && c < SMALL_CLASSES && p !in a.sb && p > 0
    ensures var v := Install(a, p, c);
            && Inv(v) && p in v.sb && p in v.loc && v.loc[p] == Slot(0, c, 0) && v.sb[p].heap == 0
            && Slot(h, c, 1) in v.bins && Fetched(a, Transfer(v, p, Slot(h, c, 1)), p, h, c)
  {
    hide Maps, Books, BinOk, Bin, Transfer, Install;
    InstallInv(a, p, c);
    var v := Install(a, p, c);
    FetchSettles(v, p, h, c);
    forall q | q in a.sb ensures v.sb[q].cls == a.sb[q].cls && SameButLinks(a.sb[q], v.sb[q]) {
      assert SameButLinks(a.sb[q], v.sb[q]);
    }
    TransferTouches(v, p, Slot(h, c, 1));
    OnlyTouchesChain(a, v, Transfer(v, p, Slot(h, c, 1)), p);
    hide OnlyTouches;
  }

  lemma SlotInRange(a: Arena, p: int)
    requires Inv(a) && p in a.sb
    ensures a.sb[p].cls < NSIZES && 0 <= a.sb[p].used && SlotOk(|a.used|, RightSlot(a.sb[p]))
  {
    hide Books, BinOk, Bin, Total, Reserved;
    UsedBounds(a, p);
    BinRange(a.sb[p].used, Total(a.sb[p].cls));
  }

  lemma InBinFacts(a: Arena, p: int, s: Slot)
    requires Settled(a) && s in a.bins && p in a.bins[s]
    ensures p in a.loc && a.loc[p] == s && p in a.sb && a.sb[p].heap == s.h && a.sb[p].cls == s.c
  {
    BinsBetweenCalls(a, s, p);
  }

  /** A superblock that is not full has a clear bit below its block count. */
  lemma HasClearBit(a: Arena, p: int)
    requires Inv(a) && p in a.sb && a.sb[p].cls < NSIZES && a.sb[p].used < Total(a.sb[p].cls)
    ensures exists i: nat :: i < Total(a.sb[p].cls) && i !in a.sb[p].bits
  {
    UsedBounds(a, p);
  }

  /** What handing out a clear block does to the live blocks. */
  lemma OccupyFacts(a: Arena, p: int, i: nat, c: nat)
    requires Settled(a) && p in a.sb && a.sb[p].cls == c && c < NSIZES && i !in a.sb[p].bits && i < Total(c)
    ensures c < SMALL_CLASSES && Reserved(c) <= i && (p, i) !in a.live
    ensures a.sb[p].heap < |a.used| && p in a.loc && a.loc[p].h == a.sb[p].heap
    ensures var v := Occupy(a, p, i);
            && Inv(v) && p in v.sb && p in v.loc && v.loc == a.loc && v.sb[p].heap == a.sb[p].heap && v.sb[p].cls == c
            && var t := Place(v, p);
            && Settled(t) && t.live == a.live + {(p, i)} && KeepsClasses(a, t)
            && p in t.sb && t.sb[p].cls == c && t.sb[p].heap == a.sb[p].heap && OnlyTouches(a, t, p)
  {
    hide Inv, Bin, Total, Place;
    HeapInRange(a, p);
    ClearBitIsFree(a, p, i);
    assert Placed(a, p);
    SettledIsSettledBut(a, p);
    OccupySettles(a, p, i);
    PlaceHeap(Occupy(a, p, i), p);
    PlaceTouches(Occupy(a, p, i), p);
    OnlyTouchesChain(a, Occupy(a, p, i), Place(Occupy(a, p, i), p), p);
    hide OnlyTouches;
  }

  lemma ClearBitIsFree(a: Arena, p: int, i: nat)
    requires Inv(a) && p in a.sb && i !in a.sb[p].bits
    ensures SbOk(a, p) && Reserved(a.sb[p].cls) <= i && (p, i) !in a.live
  {
    assert SbOk(a, p);
    assert !Header(a.sb[p].cls, i);
  }

  lemma PlaceHeap(a: Arena, p: int)
    requires Inv(a) && p in a.sb && p in a.loc && a.sb[p].heap == a.loc[p].h
    ensures p in Place(a, p).sb && Place(a, p).sb[p].heap == a.sb[p].heap && Place(a, p).sb[p].cls == a.sb[p].cls
  {
    hide Inv, Transfer;
    RightSlotExists(a, p);
    TransferInv(a, p, RightSlot(a.sb[p]));
  }

  /** No superblock listed in the bin has a free block. */
  ghost predicate Exhausted(a: Arena, h: nat, c: nat, f: nat)
    requires c < NSIZES
  {
    Slot(h, c, f) in a.bins && forall p :: p in a.bins[Slot(h, c, f)] ==> p in a.sb && a.sb[p].used >= Total(c)
  }

  /** Heap `h` has a superblock of class `c` that is not full. */
  ghost predicate HasSpace(a: Arena, h: nat, c: nat)
    requires c < NSIZES
  {
    exists p :: p in a.sb && a.sb[p].heap == h && a.sb[p].cls == c && a.sb[p].used < Total(c)
  }

  /** Heap `h`, or bin 1 of heap 0, has a superblock of class `c` with space. */
  ghost predicate MayServe(a: Arena, h: nat, c: nat)
    requires c < NSIZES
  {
    HasSpace(a, h, c) || (Slot(0, c, 1) in a.bins && a.bins[Slot(0, c, 1)] != [])
  }

  /** Of the superblocks of heap `h` and class `c` with space, `p` is in the fullest quarter. */
  ghost predicate Fullest(a: Arena, h: nat, c: nat, p: int)
    requires c < NSIZES
  {
    && p in a.sb && a.sb[p].heap == h && a.sb[p].cls == c && a.sb[p].used < Total(c)
    && forall q :: q in a.sb && a.sb[q].heap == h && a.sb[q].cls == c && a.sb[q].used < Total(c) ==>
         Bin(a.sb[q].used, Total(c)) <= Bin(a.sb[p].used, Total(c))
  }

  /** Where a request of class `c` on heap `h` is served: the heap's own superblocks come first,
      the fullest quarter of them before the others, then heap 0's almost empty ones in the
      order of their bin, and only then a new one. */
  ghost predicate ServedFrom(a: Arena, h: nat, c: nat, p: int)
    requires c < NSIZES
  {
    if HasSpace(a, h, c) then Fullest(a, h, c, p)
    else if Slot(0, c, 1) in a.bins && a.bins[Slot(0, c, 1)] != [] then p == a.bins[Slot(0, c, 1)][0]
    else p !in a.sb
  }

  /** Searching the bins from the fullest down finds the fullest. */
  lemma SearchFindsFullest(a: Arena, h: nat, c: nat, f: nat, p: int)
    requires Settled(a) && c < NSIZES && Slot(h, c, f) in a.bins && p in a.bins[Slot(h, c, f)]
    requires p in a.sb && a.sb[p].used < Total(c)
    requires forall g: nat :: f < g < NUM_BINS - 1 ==> Exhausted(a, h, c, g)
    ensures HasSpace(a, h, c) && Fullest(a, h, c, p)
  {
    hide Maps, Books, BinOk, Bin, Total;
    BinsBetweenCalls(a, Slot(h, c, f), p);
    assert Placed(a, p);
    forall q | q in a.sb && a.sb[q].heap == h && a.sb[q].cls == c && a.sb[q].used < Total(c)
      ensures Bin(a.sb[q].used, Total(c)) <= Bin(a.sb[p].used, Total(c))
    {
      assert Placed(a, q) && q in a.bins[a.loc[q]];
      UsedBounds(a, q);
      BinRange(a.sb[q].used, Total(c));
      assert f < a.loc[q].f < NUM_BINS - 1 ==> Exhausted(a, h, c, a.loc[q].f);
    }
  }

  /** The bins below the full one are all that need to be searched. */
  lemma SearchIsComplete(a: Arena, h: nat, c: nat)
    requires Settled(a) && c < NSIZES && forall f: nat :: f < NUM_BINS - 1 ==> Exhausted(a, h, c, f)
    ensures !HasSpace(a, h, c)
  {
    hide Maps, Books, BinOk, Bin, Total;
    forall p | p in a.sb && a.sb[p].heap == h && a.sb[p].cls == c ensures a.sb[p].used >= Total(c) {
      assert Placed(a, p);
      UsedBounds(a, p);
      BinRange(a.sb[p].used, Total(c));
      assert a.loc[p].f < NUM_BINS - 1 ==> Exhausted(a, h, c, a.loc[p].f);
      assert p in a.bins[a.loc[p]];
    }
  }

  lemma KeepsClassesChain(a: Arena, b: Arena, c: Arena)
    requires KeepsClasses(a, b) && KeepsClasses(b, c)
    ensures KeepsClasses(a, c)
  {
    forall q | q in a.sb ensures q in c.sb && c.sb[q].cls == a.sb[q].cls {
      assert b.sb[q].cls == a.sb[q].cls;
    }
  }

  lemma AddressPositive(a: Arena, p: int, c: nat, i: nat)
    requires Inv(a) && p in a.sb && c < NSIZES
    ensures 0 < Address(p, c, i)
  {
    hide Bins, Books;
    assert SbOk(a, p);
  }

  /** The test of `mm_free`: heap `h` is not heap 0, is less than a quarter full, and has more
      than `K` superblocks' worth of free space. */
  ghost predicate MustReturn(a: Arena, h: nat) {
    && 0 < h < |a.used| == |a.alloc|
    && a.used[h] < a.alloc[h] / FULLNESS && a.used[h] < a.alloc[h] - K * SB_SIZE
  }

  /** What freeing block `i` of `p` leads to before the emptiness test. */
  ghost function Freed(a: Arena, p: int, i: nat): Arena
    requires Settled(a) && (p, i) in a.live
  {
    VacateSettles(a, p, i);
    Place(Vacate(a, p, i), p)
  }

  lemma FreedFacts(a: Arena, p: int, i: nat)
    requires Settled(a) && (p, i) in a.live
    ensures p in a.sb && SbOk(a, p) && i in a.sb[p].bits && p in a.loc && 0 <= a.sb[p].used
    ensures a.loc[p] == RightSlot(a.sb[p]) && a.sb[p].heap < |a.used|
    ensures var v := Vacate(a, p, i);
            && Inv(v) && p in v.sb && p in v.loc && v.loc == a.loc && v.sb[p].heap == a.sb[p].heap
            && v.sb[p].cls == a.sb[p].cls
    ensures var t := Freed(a, p, i);
            Settled(t) && t.live == a.live - {(p, i)} && KeepsClasses(a, t) && |t.used| == |a.used|
  {
    hide Inv, Bin, Total, Place;
    VacateSettles(a, p, i);
    HeapInRange(a, p);
    assert Placed(a, p);
  }

  /** The superblock that goes back to heap 0 keeps its bin number. */
  lemma ReturnSettles(a: Arena, q: int, h: nat)
    requires Settled(a) && q in a.loc && q in a.sb && a.sb[q].cls < NSIZES && |a.used| > 0
    requires a.loc[q] == Slot(h, a.sb[q].cls, 1)
    ensures a.sb[q].heap == h && Slot(0, a.sb[q].cls, 1) in a.bins && FULLNESS * a.sb[q].used < Total(a.sb[q].cls)
    ensures var t := Transfer(a, q, Slot(0, a.sb[q].cls, 1));
            Settled(t) && t.live == a.live && KeepsClasses(a, t)
  {
    hide Maps, Books, BinOk, Bin, Transfer, Total;
    assert q in a.bins[a.loc[q]];
    BinsBetweenCalls(a, a.loc[q], q);
    SettledIsSettledBut(a, q);
    FetchSettles(a, q, 0, a.sb[q].cls);
  }

  lemma LiveBlockIndex(a: Arena, p: int, i: nat)
    requires Inv(a) && (p, i) in a.live
    ensures p in a.sb && a.sb[p].cls < SMALL_CLASSES && i < Total(a.sb[p].cls)
  {
    assert SbOk(a, p);
  }

  /** `t` is `v` with `q`, a superblock of heap `h` less than a quarter full, in heap 0. */
  ghost predicate Returns(v: Arena, h: nat, q: int, t: Arena) {
    && Inv(v) && q in v.sb && v.sb[q].heap == h && v.sb[q].cls < NSIZES
    && FULLNESS * v.sb[q].used < Total(v.sb[q].cls)
    && q in v.loc && v.loc[q] == Slot(h, v.sb[q].cls, 1) && Slot(0, v.sb[q].cls, 1) in v.bins
    && t == Transfer(v, q, Slot(0, v.sb[q].cls, 1))
  }

  /** The whole effect of freeing block `i` of `p`. */
  ghost predicate Frees(a: Arena, p: int, i: nat, q: int, t: Arena) {
    && Settled(a) && (p, i) in a.live && p in a.sb
    && if MustReturn(Freed(a, p, i), a.sb[p].heap) then Returns(Freed(a, p, i), a.sb[p].heap, q, t) else t == Freed(a, p, i)
  }
}
