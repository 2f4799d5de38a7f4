/** The superblock allocator: headers, bins and counters changed in place, for runs of calls
    that do not overlap and requests of at most 128 bytes. The ghost field `book` mirrors the
    state; every method says which step it is. */
module A2Alloc {
  import opened PageLayout
  import opened Chains
  import opened ArenaState
  import opened BinSteps
  import opened ArenaSteps
  import opened ArenaSafety
  import opened ArenaCalls
  import opened ArenaReturns
  import opened BlockMaps
  import opened Memlib

  const LARGEST_SMALL := 128

  /** The header at the start of a superblock's page. */
  class Superblock {
    const page: int
    var blockSize: int
    var blockMap: seq<bv8>
    var usedBlocks: int
    var heapId: int
    var prev: Superblock?
    var next: Superblock?

    // The words found on a page just obtained are arbitrary.
    constructor (p: int, size: int, map0: seq<bv8>, used: int, heap: int)
      ensures page == p && blockSize == size && blockMap == map0 && usedBlocks == used && heapId == heap
      ensures prev == null && next == null
    {
      page, blockSize, blockMap, usedBlocks, heapId := p, size, map0, used, heap;
      prev, next := null, null;
    }
  }

  /** Reference `o` is to the superblock on page `q`; null stands for page 0. */
  ghost predicate Points(table: map<int, Superblock>, o: Superblock?, q: int) {
    if q == 0 then o == null else q in table && table[q] == o
  }

  ghost predicate Reflects(table: map<int, Superblock>, o: Superblock, p: int, b: Sb)
    reads o
  {
    && o.page == p && b.cls < NSIZES && o.blockSize == SizeOf(b.cls)
    && Shows(o.blockMap, b.bits)
    && o.usedBlocks == b.used && o.heapId == b.heap
    && Points(table, o.prev, b.prev) && Points(table, o.next, b.next)
  }

  ghost predicate HeadersOk(table: map<int, Superblock>, sb: map<int, Sb>)
    reads table.Values
  {
    && table.Keys == sb.Keys
    && forall p :: p in table ==> Reflects(table, table[p], p, sb[p])
  }

  ghost predicate HeadsOk(table: map<int, Superblock>, binFirst: array3<Superblock?>, first: map<Slot, int>)
    reads binFirst
  {
    && binFirst.Length1 == NSIZES && binFirst.Length2 == NUM_BINS
    && forall s :: SlotOk(binFirst.Length0, s) ==> s in first && Points(table, binFirst[s.h, s.c, s.f], first[s])
  }

  ghost predicate PagesObtained(table: map<int, Superblock>, dsegHi: int) {
    forall p :: p in table ==> SB_SIZE * p <= dsegHi
  }

  class Allocator {
    const seg: DataSegment
    const space: array<int>               // per heap
    const used: array<int>                    // per heap
    const binFirst: array3<Superblock?>       // per heap, size class and fullness
    var table: map<int, Superblock>           // the header found at the start of a page
    ghost var book: Arena

    ghost predicate Mirrors()
      reads this, seg, space, used, binFirst, table.Values
    {
      && seg.Valid() && space != used
      && 1 <= used.Length == space.Length == binFirst.Length0
      && space[..] == book.alloc && used[..] == book.used
      && HeadersOk(table, book.sb) && HeadsOk(table, binFirst, book.first)
      && PagesObtained(table, seg.dsegHi)
    }

    ghost predicate Valid()
      reads this, seg, space, used, binFirst, table.Values
    {
      Mirrors() && Settled(book)
    }

    /** `mm_init`: a page for the table of heaps and one for each heap, all bins empty. */
    constructor (s: DataSegment, ncpu: nat)
      requires s.Valid() && s.Used() + SB_SIZE * (ncpu + 2) <= s.dsegSize
      modifies s
      ensures Valid() && seg == s && used.Length == ncpu + 1 && book.live == {} && table == map[]
      ensures fresh(used) && fresh(space) && fresh(binFirst)
    {
      var heapTable := s.MemSbrk(SB_SIZE);
      for i := 0 to ncpu + 1
        invariant s.Valid() && s.Used() + SB_SIZE * (ncpu + 1 - i) <= s.dsegSize
      {
        var heap := s.MemSbrk(SB_SIZE);
      }
      seg := s;
      space := new int[ncpu + 1](_ => 0);
      used := new int[ncpu + 1](_ => 0);
      binFirst := new Superblock?[ncpu + 1, NSIZES, NUM_BINS]((_, _, _) => null);
      table := map[];
      new;
      EmptyArenaSettled(space[..], used[..]);
      book := EmptyArena(space[..], used[..]);
    }

    // ------------------------------------------------------------ single stores

    method SetPrev(o: Superblock, v: Superblock?, ghost q: int)
      requires Mirrors() && o.page in table && table[o.page] == o && Points(table, v, q)
      modifies this`book, o`prev
      ensures Mirrors() && book == old(book).(sb := old(book).sb[o.page := old(book).sb[o.page].(prev := q)])
    {
      hide Shows, SizeOf, HeadsOk, PagesObtained;
      o.prev := v;
      book := book.(sb := book.sb[o.page := book.sb[o.page].(prev := q)]);
    }

    method SetNext(o: Superblock, v: Superblock?, ghost q: int)
      requires Mirrors() && o.page in table && table[o.page] == o && Points(table, v, q)
      modifies this`book, o`next
      ensures Mirrors() && book == old(book).(sb := old(book).sb[o.page := old(book).sb[o.page].(next := q)])
    {
      hide Shows, SizeOf, HeadsOk, PagesObtained;
      o.next := v;
      book := book.(sb := book.sb[o.page := book.sb[o.page].(next := q)]);
    }

    method SetHead(h: nat, c: nat, f: nat, v: Superblock?, ghost q: int)
      requires Mirrors() && h < used.Length && c < NSIZES && f < NUM_BINS && Points(table, v, q)
      modifies this`book, binFirst
      ensures Mirrors() && book == old(book).(first := old(book).first[Slot(h, c, f) := q])
    {
      hide HeadersOk, PagesObtained;
      binFirst[h, c, f] := v;
      book := book.(first := book.first[Slot(h, c, f) := q]);
    }

    // ------------------------------------------------------------ moving between bins

    /** The first half of `transfer_bins`: `sb`'s neighbours, or the bin head, skip it. */
    method UnlinkSb(sb: Superblock, h: nat, c: nat, f: nat)
      requires Mirrors() && Bins(book) && sb.page in table && table[sb.page] == sb
      requires sb.page in book.loc && book.loc[sb.page] == Slot(h, c, f)
      modifies this`book, binFirst, table.Values
      ensures Mirrors() && book == Unlink(old(book), sb.page) && Bins(book)
      ensures sb.prev == old(sb.prev) && sb.next == old(sb.next)
    {
      hide Shows, SizeOf, HeadsOk, PagesObtained, Bins, HeadersOk;
      ghost var p, before := sb.page, book;
      NeighboursAreOthers(before, p);
      UnlinkBins(before, p);
      HeaderAt(sb);
      ghost var b := book.sb[p];
      if sb.next != null {
        SetPrev(sb.next, sb.prev, b.prev);
      }
      if sb.prev != null {
        SetNext(sb.prev, sb.next, b.next);
      } else {
        SetHead(h, c, f, sb.next, b.next);
      }
      book := book.(bins := Unlink(before, p).bins, loc := Unlink(before, p).loc);
    }

    /** The second half: `sb` becomes the first of bin `[h, c, f]`. */
    method PushSb(sb: Superblock, h: nat, c: nat, f: nat)
      requires Mirrors() && Bins(book) && sb.page in table && table[sb.page] == sb
      requires sb.page !in book.loc && sb.page != 0 && h < used.Length && c < NSIZES && f < NUM_BINS
      modifies this`book, binFirst, table.Values
      ensures Mirrors() && Slot(h, c, f) in old(book).bins && Slot(h, c, f) in old(book).first
      ensures sb.page in old(book).sb && book == Push(old(book), sb.page, Slot(h, c, f)) && Bins(book)
    {
      hide Shows, SizeOf, HeadsOk, PagesObtained, Bins, HeadersOk;
      ghost var p, d, before := sb.page, Slot(h, c, f), book;
      SlotHead(before, d);
      HeaderAt(sb);
      PushBins(before, p, d);
      HeadAt(d);
      var head := binFirst[h, c, f];
      ghost var q := book.first[d];
      if head != null {
        SetPrev(head, sb, p);
      }
      SetNext(sb, head, q);
      SetPrev(sb, null, 0);
      SetHead(h, c, f, sb, p);
      book := book.(bins := Push(before, p, d).bins, loc := Push(before, p, d).loc);
    }

    /** Moves `sb` from one bin to the front of another; between heaps, what it counts goes
        with it. */
    method TransferBins(sb: Superblock, orig: (nat, nat, nat), dest: (nat, nat, nat))
      requires Mirrors() && Inv(book) && sb.page in table && table[sb.page] == sb
      requires sb.page in book.loc && book.loc[sb.page] == Slot(orig.0, orig.1, orig.2)
      requires sb.page in book.sb && book.sb[sb.page].heap == orig.0
      requires dest.0 < used.Length && dest.1 < NSIZES && dest.2 < NUM_BINS
      modifies this`book, binFirst, space, used, table.Values
      ensures Slot(dest.0, dest.1, dest.2) in old(book).bins
      ensures Mirrors() && Inv(book) && book == Transfer(old(book), sb.page, Slot(dest.0, dest.1, dest.2))
    {
      hide Shows, SizeOf, HeadsOk, PagesObtained, Maps, Books, HeadersOk, BinOk, UnlinkNodes, PushNodes;
      ghost var p, d, before := sb.page, Slot(dest.0, dest.1, dest.2), book;
      SlotHead(before, d);
      TransferInv(before, p, d);
      SameHeap(before, p, d);
      HeapInRange(before, p);
      UnlinkSb(sb, orig.0, orig.1, orig.2);
      PushSb(sb, dest.0, dest.1, dest.2);
      if dest.0 != orig.0 {
        MoveCounts(sb, orig.0, dest.0);
      }
    }

    /** The bytes a superblock has in use, and its space, move between the counters. */
    method MoveCounts(sb: Superblock, g: nat, h: nat)
      requires Mirrors() && sb.page in table && table[sb.page] == sb && sb.page in book.sb
      requires book.sb[sb.page].heap == g < used.Length && h < used.Length && g != h
      modifies this`book, space, used, sb`heapId
      ensures Mirrors() && |old(book).used| == |old(book).alloc| && book == Rehome(old(book), sb.page, h)
    {
      hide Shows, HeadsOk, PagesObtained;
      HeaderAt(sb);
      sb.heapId := h;
      var bytesMoved := sb.usedBlocks * sb.blockSize;
      used[g] := used[g] - bytesMoved;
      space[g] := space[g] - SB_SIZE;
      used[h] := used[h] + bytesMoved;
      space[h] := space[h] + SB_SIZE;
      book := Rehome(book, sb.page, h);
    }

    // ------------------------------------------------------------ allocating

    /** `new_superblock`: the header on page `p`, and what heap 0 counts for it. */
    method InitSuperblock(p: int, c: nat) returns (sb: Superblock)
      requires Mirrors() && p !in table && 0 < p && SB_SIZE * p <= seg.dsegHi && c < SMALL_CLASSES
      modifies this, space, used
      ensures |old(book).used| > 0 && |old(book).alloc| > 0 && book == Create(old(book), p, c)
      ensures Mirrors() && sb.page == p && table == old(table)[p := sb] && fresh(sb)
    {
      hide HeadersOk, HeadsOk, PagesObtained, Reflects;
      sb := MakeHeader(p, c);
      AddHeader(sb, p, NewHeader(c));
      CountHeader(p, c);
    }

    method MakeHeader(p: int, c: nat) returns (sb: Superblock)
      requires c < SMALL_CLASSES
      ensures fresh(sb) && sb.page == p && Reflects(table, sb, p, NewHeader(c))
    {
      hide SizeOf, Reserved, HeaderMap, Shows;
      var blocksUsed := Reserved(c);
      sb := new Superblock(p, SizeOf(c), HeaderMap(blocksUsed), blocksUsed, 0);
      HeaderMapShows(blocksUsed, FirstBits(blocksUsed));
    }

    /** Heap 0 counts the space and the header's blocks of a new superblock. */
    method CountHeader(p: int, c: nat)
      requires seg.Valid() && space != used && 1 <= used.Length == space.Length == binFirst.Length0
      requires space[..] == book.alloc && used[..] == book.used && c < SMALL_CLASSES
      requires HeadersOk(table, book.sb[p := NewHeader(c)]) && HeadsOk(table, binFirst, book.first)
      requires PagesObtained(table, seg.dsegHi)
      modifies this`book, space, used
      ensures |old(book).used| > 0 && |old(book).alloc| > 0 && book == Create(old(book), p, c) && Mirrors()
    {
      hide SizeOf, Reserved, HeadersOk, HeadsOk, PagesObtained, NewHeader;
      used[0] := used[0] + Reserved(c) * SizeOf(c);
      space[0] := space[0] + SB_SIZE;
      book := Create(book, p, c);
    }

    /** A new page becomes a superblock of class `c`, slotted into heap 0 for the moment. */
    method NewSuperblock(p: int, c: nat) returns (sb: Superblock)
      requires Mirrors() && Settled(book) && p !in table && 0 < p && SB_SIZE * p <= seg.dsegHi && c < SMALL_CLASSES
      modifies this, space, used, binFirst
      ensures p !in old(book).sb && |old(book).used| > 0 && book == Install(old(book), p, c)
      ensures Mirrors() && sb.page == p && table == old(table)[p := sb] && fresh(sb)
    {
      hide Bins, Maps, Books, HeadersOk, HeadsOk, PagesObtained, Create, Install;
      ghost var before := book;
      EmptyBin0(before, 0, c);
      NoHeader(p);
      InstallSetsHead(before, p, c);
      sb := InitSuperblock(p, c);
      HeaderAt(sb);
      SetHead(0, c, 0, sb, p);
      book := Install(before, p, c);
    }

    lemma NoHeader(p: int)
      requires Mirrors() && p !in table
      ensures p !in book.sb
    {
    }

    /** The header object of a page that had none joins the table. */
    method AddHeader(sb: Superblock, p: int, ghost b: Sb)
      requires HeadersOk(table, book.sb) && HeadsOk(table, binFirst, book.first) && PagesObtained(table, seg.dsegHi)
      requires p !in table && p != 0 && SB_SIZE * p <= seg.dsegHi && Reflects(table, sb, p, b)
      modifies this`table
      ensures table == old(table)[p := sb]
      ensures HeadersOk(table, book.sb[p := b]) && HeadsOk(table, binFirst, book.first) && PagesObtained(table, seg.dsegHi)
    {
      table := table[p := sb];
    }

    lemma HeadAt(d: Slot)
      requires Mirrors() && SlotOk(used.Length, d)
      ensures binFirst.Length1 == NSIZES && binFirst.Length2 == NUM_BINS
      ensures d in book.first && Points(table, binFirst[d.h, d.c, d.f], book.first[d])
      ensures var o := binFirst[d.h, d.c, d.f]; o != null ==> o.page == book.first[d] && o.page in table && table[o.page] == o
    {
      var o := binFirst[d.h, d.c, d.f];
      if o != null { assert Reflects(table, table[book.first[d]], book.first[d], book.sb[book.first[d]]); }
    }

    lemma HeaderAt(sb: Superblock)
      requires Mirrors() && sb.page in table && table[sb.page] == sb
      ensures sb.page in book.sb && Reflects(table, sb, sb.page, book.sb[sb.page])
      ensures sb.next != null ==> sb.next.page == book.sb[sb.page].next && table[sb.next.page] == sb.next
      ensures sb.prev != null ==> sb.prev.page == book.sb[sb.page].prev && table[sb.prev.page] == sb.prev
    {
      assert Reflects(table, table[sb.page], sb.page, book.sb[sb.page]);
      if sb.next != null { assert table[book.sb[sb.page].next] == sb.next; }
    }

    /** The smallest size class that holds `sz` bytes. */
    method SizeId(sz: nat) returns (c: nat)
      requires sz <= LARGEST_SMALL
      ensures c < SMALL_CLASSES && sz <= SizeOf(c) && forall j: nat :: j < c ==> SizeOf(j) < sz
    {
      c := 0;
      for i := 0 to NSIZES
        invariant forall j: nat :: j < i ==> SizeOf(j) < sz
        invariant i == SMALL_CLASSES ==> SizeOf(SMALL_CLASSES - 1) < sz
        invariant i <= SMALL_CLASSES
      {
        if sz <= SizeOf(i) {
          return i;
        }
      }
    }

    /** Scans the bytes that class `c` uses for the first clear bit; -1 if all are set. */
    method FindBlock(m: seq<bv8>, c: nat) returns (k: int)
      requires |m| == MAP_BYTES && c < SMALL_CLASSES
      ensures -1 <= k < Total(c)
      ensures k >= 0 ==> !Bit(m, k) && forall i: nat :: i < k ==> Bit(m, i)
      ensures k == -1 ==> forall i: nat :: i < Total(c) ==> Bit(m, i)
    {
      var numChars := SB_SIZE / (SizeOf(c) * 8);
      MapBytesOf(c);
      for j := 0 to numChars
        invariant forall i: nat :: i < 8 * j ==> Bit(m, i)
      {
        if m[j] < 255 {
          for b := 0 to 8
            invariant forall i: nat :: i < 8 * j + b ==> Bit(m, i)
          {
            assert (8 * j + b) / 8 == j && (8 * j + b) % 8 == b;
            if !ByteBit(m[j], b) {
              return j * 8 + b;
            }
          }
        } else {
          forall i: nat | 8 * j <= i < 8 * j + 8 ensures Bit(m, i) { FullByte(m[j], i % 8); }
        }
      }
      k := -1;
    }

    lemma MapBytesOf(c: nat)
      requires c < SMALL_CLASSES
      ensures 8 * (SB_SIZE / (SizeOf(c) * 8)) == Total(c) && Total(c) <= 8 * MAP_BYTES
    {
    }

    /** The first superblock with space for class `c` in heap `h`, from the nearly full bin
        down to the empty one. */
    method FindTarget(h: nat, c: nat) returns (target: Superblock?, oldFullness: nat)
      requires Mirrors() && Settled(book) && h < used.Length && c < SMALL_CLASSES
      ensures oldFullness < NUM_BINS - 1 && Slot(h, c, oldFullness) in book.bins
      ensures target != null ==>
                && target.page in table && table[target.page] == target && target.page in book.sb
                && target.page in book.bins[Slot(h, c, oldFullness)]
                && book.sb[target.page].used < Total(c)
                && forall f: nat :: oldFullness < f < NUM_BINS - 1 ==> Exhausted(book, h, c, f)
      ensures target == null ==> forall f: nat :: f < NUM_BINS - 1 ==> Exhausted(book, h, c, f)
    {
      hide Maps, Books, HeadersOk, HeadsOk, Reflects, PagesObtained, BinOk, Total;
      target, oldFullness := null, 0;
      var i := NUM_BINS - 2;
      while i >= 0
        invariant -1 <= i <= NUM_BINS - 2 && target == null
        invariant Slot(h, c, oldFullness) in book.bins && oldFullness < NUM_BINS - 1
        invariant forall f: nat :: i < f < NUM_BINS - 1 ==> Exhausted(book, h, c, f)
      {
        SlotHead(book, Slot(h, c, i));
        target := ScanBin(h, c, i);
        if target != null {
          return target, i;
        }
        i := i - 1;
      }
    }

    /** The first superblock of one bin that is not full. */
    method ScanBin(h: nat, c: nat, f: nat) returns (target: Superblock?)
      requires Mirrors() && Settled(book) && h < used.Length && c < SMALL_CLASSES && f < NUM_BINS
      ensures Slot(h, c, f) in book.bins
      ensures target == null ==> Exhausted(book, h, c, f)
      ensures target != null ==>
                && target.page in table && table[target.page] == target && target.page in book.sb
                && target.page in book.bins[Slot(h, c, f)] && book.sb[target.page].used < Total(c)
    {
      hide Maps, Books, HeadersOk, HeadsOk, PagesObtained, SizeOf, Shows;
      ghost var s := Slot(h, c, f);
      SlotHead(book, s);
      HeadAt(s);
      ghost var t := book.bins[s];
      ghost var j: nat := 0;
      assert BinOk(book.sb, book.first[s], t);
      forall l | 0 <= l < |t| ensures t[l] in t && t[l] != 0 { BinNode(book.sb, book.first[s], t, l); }
      target := binFirst[h, c, f];
      while target != null
        invariant j <= |t| && Points(table, target, At(t, j))
        invariant forall l :: 0 <= l < j ==> t[l] in book.sb && book.sb[t[l]].used >= Total(c)
        decreases |t| - j
      {
        BinNode(book.sb, book.first[s], t, j);
        HeaderAtPage(t[j]);
        BinsBetweenCalls(book, s, t[j]);
        FirstBitReserved(t[j]);
        if !Bit(target.blockMap, 0) {
          assert false;
        }
        if target.usedBlocks < SB_SIZE / SizeOf(c) {
          return;
        }
        target := target.next;
        j := j + 1;
      }
    }

    lemma HeaderAtPage(p: int)
      requires Mirrors() && p in book.sb
      ensures p in table && table[p].page == p && Reflects(table, table[p], p, book.sb[p])
    {
    }

    /** Bit 0 of a small class's map is a header block, so it is never clear. */
    lemma FirstBitReserved(p: int)
      requires Mirrors() && Inv(book) && p in book.sb
      ensures p in table && |table[p].blockMap| == MAP_BYTES && Bit(table[p].blockMap, 0)
    {
      hide Bins, Books, HeadsOk, PagesObtained, Bit;
      assert SbOk(book, p) && Reflects(table, table[p], p, book.sb[p]);
      assert Header(book.sb[p].cls, 0);
      assert 0 in book.sb[p].bits;
    }

    /** Heap 0's bins of empty superblocks, which are never occupied between calls: the branch
        that would reset one is dead. */
    method CheckEmptyBins()
      requires Mirrors() && Settled(book)
      ensures binFirst.Length0 > 0 && binFirst.Length1 == NSIZES && binFirst.Length2 == NUM_BINS
      ensures forall c: nat :: c < NSIZES ==> binFirst[0, c, 0] == null
    {
      hide Maps, Books, HeadersOk, PagesObtained, BinOk;
      for i := 0 to NSIZES
        invariant binFirst.Length0 > 0 && binFirst.Length1 == NSIZES && binFirst.Length2 == NUM_BINS
        invariant forall c: nat :: c < i ==> binFirst[0, c, 0] == null
      {
        EmptyBin0(book, 0, i);
        HeadAt(Slot(0, i, 0));
        if binFirst[0, i, 0] != null {
          assert false;
        }
      }
    }

    /** A superblock of class `c` for heap `h` when none of its own has space: the first of the
        almost empty ones of heap 0, else a new page. */
    method FetchSuperblock(h: nat, c: nat) returns (target: Superblock?)
      requires Valid() && 0 < h < used.Length && c < SMALL_CLASSES
      modifies this, space, used, binFirst, table.Values, seg`dsegHi
      ensures Mirrors() && Slot(0, c, 1) in old(book).bins && |old(book).used| > h
      ensures target == null ==> book == old(book) && seg.dsegHi == old(seg.dsegHi) && seg.Used() + SB_SIZE > seg.dsegSize
      ensures target != null ==>
                && target.page in table && table[target.page] == target
                && Fetched(old(book), book, target.page, h, c)
      ensures var s := old(book).bins[Slot(0, c, 1)];
              if s != [] then target != null && target.page == s[0] && seg.dsegHi == old(seg.dsegHi)
              else target != null ==> target.page !in old(book).sb && seg.dsegHi == old(seg.dsegHi) + SB_SIZE
      ensures fresh(table.Values - old(table.Values))
    {
      hide Maps, Books, HeadersOk, HeadsOk, PagesObtained, BinOk, Transfer, Install, Fetched;
      CheckEmptyBins();
      ghost var d := Slot(0, c, 1);
      HeadInBin(book, d);
      HeadAt(d);
      target := binFirst[0, c, 1];
      if target != null {
        FetchReady(book, target.page, h, c);
        TransferBins(target, (0, c, 1), (h, c, 1));
      } else {
        target := FetchNew(h, c);
      }
    }

    /** A new superblock on a page from the segment, if it has one left. */
    method FetchNew(h: nat, c: nat) returns (target: Superblock?)
      requires Valid() && 0 < h < used.Length && c < SMALL_CLASSES
      modifies this, space, used, binFirst, table.Values, seg`dsegHi
      ensures Mirrors()
      ensures target == null ==> book == old(book) && seg.dsegHi == old(seg.dsegHi) && seg.Used() + SB_SIZE > seg.dsegSize
      ensures target != null ==>
                && target.page in table && table[target.page] == target
                && Fetched(old(book), book, target.page, h, c)
                && target.page !in old(book).sb && seg.dsegHi == old(seg.dsegHi) + SB_SIZE
      ensures fresh(table.Values - old(table.Values))
    {
      hide Maps, Books, HeadersOk, HeadsOk, PagesObtained, BinOk, Transfer, Install, Fetched;
      ghost var before, hi := book, seg.dsegHi;
      var tmp := seg.MemSbrk(SB_SIZE);
      if tmp == 0 {
        return null;
      }
      PageIsNew(table, hi, tmp);
      NoHeader(tmp / SB_SIZE);
      InstallReady(before, tmp / SB_SIZE, h, c);
      target := NewSuperblock(tmp / SB_SIZE, c);
      TransferBins(target, (0, c, 0), (h, c, 1));
    }

    /** Marks block `i` of `sb` as used and counts it. */
    method MarkBlock(sb: Superblock, i: nat, h: nat, c: nat)
      requires Mirrors() && Inv(book) && sb.page in table && table[sb.page] == sb && sb.page in book.sb
      requires book.sb[sb.page].heap == h < used.Length && book.sb[sb.page].cls == c < NSIZES
      requires i !in book.sb[sb.page].bits && i < Total(c)
      modifies this`book, used, sb`blockMap, sb`usedBlocks
      ensures |old(book).used| > h && Mirrors() && book == Occupy(old(book), sb.page, i)
    {
      hide Maps, Books, Bins, HeadsOk, PagesObtained, Added, Shows, SizeOf, Total, Bit;
      HeaderAt(sb);
      SetBit(sb.blockMap, book.sb[sb.page].bits, i);
      sb.blockMap := Added(sb.blockMap, i);
      sb.usedBlocks := sb.usedBlocks + 1;
      used[h] := used[h] + SizeOf(c);
      book := Occupy(book, sb.page, i);
    }

    /** Clears the bit of block `i` of `sb` and uncounts it. */
    method UnmarkBlock(sb: Superblock, i: nat)
      requires Mirrors() && Inv(book) && sb.page in table && table[sb.page] == sb && sb.page in book.sb
      requires book.sb[sb.page].heap < used.Length && book.sb[sb.page].cls < NSIZES
      requires i in book.sb[sb.page].bits
      modifies this`book, used, sb`blockMap, sb`usedBlocks
      ensures |old(book).used| > old(book).sb[sb.page].heap && Mirrors() && book == Vacate(old(book), sb.page, i)
    {
      hide Maps, Books, Bins, HeadsOk, PagesObtained, Subtracted, Shows, SizeOf, Total, Bit;
      HeaderAt(sb);
      ClearBit(sb.blockMap, book.sb[sb.page].bits, i);
      sb.blockMap := Subtracted(sb.blockMap, i);
      sb.usedBlocks := sb.usedBlocks - 1;
      used[sb.heapId] := used[sb.heapId] - sb.blockSize;
      book := Vacate(book, sb.page, i);
    }

    /** Moves `sb` to the bin of its present fullness if that is not where it is. */
    method Rebin(sb: Superblock, h: nat, c: nat, oldFullness: nat)
      requires Mirrors() && Inv(book) && sb.page in table && table[sb.page] == sb && sb.page in book.sb
      requires sb.page in book.loc && book.loc[sb.page] == Slot(h, c, oldFullness)
      requires book.sb[sb.page].heap == h && book.sb[sb.page].cls == c < NSIZES
      modifies this`book, binFirst, space, used, table.Values
      ensures Mirrors() && Inv(book) && book == Place(old(book), sb.page)
    {
      hide Maps, Books, Bins, HeadersOk, HeadsOk, PagesObtained, Bin, SizeOf, Transfer;
      HeaderAt(sb);
      RightSlotExists(book, sb.page);
      SlotInRange(book, sb.page);
      var newFullness := Bin(sb.usedBlocks, SB_SIZE / sb.blockSize);
      assert SB_SIZE / sb.blockSize == Total(c);
      if newFullness != oldFullness {
        TransferBins(sb, (h, c, oldFullness), (h, c, newFullness));
      }
    }

    /** Hands out the first clear block of a superblock that is not full. */
    method TakeBlock(sb: Superblock, h: nat, c: nat, oldFullness: nat) returns (block: int, ghost i: nat)
      requires Mirrors() && Settled(book) && sb.page in table && table[sb.page] == sb && sb.page in book.sb
      requires sb.page in book.loc && book.loc[sb.page] == Slot(h, c, oldFullness)
      requires book.sb[sb.page].heap == h < used.Length && book.sb[sb.page].cls == c < SMALL_CLASSES
      requires book.sb[sb.page].used < Total(c)
      modifies this`book, binFirst, space, used, table.Values
      ensures Valid() && (sb.page, i) !in old(book).live && book.live == old(book).live + {(sb.page, i)}
      ensures Reserved(c) <= i < Total(c) && 0 < block == Address(sb.page, c, i) && KeepsClasses(old(book), book)
      ensures sb.page in book.sb && book.sb[sb.page].cls == c && book.sb[sb.page].heap == h
      ensures OnlyTouches(old(book), book, sb.page)
    {
      hide Maps, Books, Bins, HeadersOk, HeadsOk, PagesObtained, Bin, Place, Occupy, Total, Bit, OnlyTouches;
      HeaderAt(sb);
      HasClearBit(book, sb.page);
      MapBytesOf(c);
      var blockId := FindBlock(sb.blockMap, c);
      ShowsBits(sb.blockMap, book.sb[sb.page].bits, Total(c));
      if blockId == -1 {
        assert false;
      }
      i := blockId;
      OccupyFacts(book, sb.page, i, c);
      block := SB_SIZE * sb.page + WORD_BYTES * Scale(c, blockId);
      AddressPositive(book, sb.page, c, i);
      MarkBlock(sb, blockId, h, c);
      Rebin(sb, h, c, oldFullness);
    }

    /** A request of at most 128 bytes on processor `cpu`. `p` and `i` name the block handed
        out; `c` is its size class. A null result means the segment is exhausted. The segment is
        asked only if neither that heap nor heap 0 has a superblock that will do. */
    method MmMalloc(sz: nat, cpu: nat) returns (block: int, ghost p: int, ghost i: nat, ghost c: nat)
      requires Valid() && sz <= LARGEST_SMALL && cpu + 1 < used.Length
      modifies this, space, used, binFirst, table.Values, seg`dsegHi
      ensures Valid() && c < SMALL_CLASSES && sz <= SizeOf(c) && forall j: nat :: j < c ==> SizeOf(j) < sz
      ensures block == 0 ==> book == old(book) && seg.dsegHi == old(seg.dsegHi) && seg.Used() + SB_SIZE > seg.dsegSize
      ensures block != 0 ==>
                && (p, i) !in old(book).live && book.live == old(book).live + {(p, i)}
                && p in book.sb && book.sb[p].cls == c && book.sb[p].heap == cpu + 1
                && Reserved(c) <= i < Total(c) && block == Address(p, c, i)
                && ServedFrom(old(book), cpu + 1, c, p) && OnlyTouches(old(book), book, p)
      ensures KeepsClasses(old(book), book)
      ensures fresh(table.Values - old(table.Values))
      ensures seg.dsegHi == old(seg.dsegHi) || seg.dsegHi == old(seg.dsegHi) + SB_SIZE
      ensures MayServe(old(book), cpu + 1, c) ==> block != 0 && seg.dsegHi == old(seg.dsegHi)
    {
      hide Settled, HeadersOk, HeadsOk, PagesObtained, Reflects, SizeOf, Reserved, Total, HasSpace, MayServe, ServedFrom, OnlyTouches;
      ghost var before := book;
      var sizeId := SizeId(sz);
      c, p, i := sizeId, 0, 0;
      var target, oldFullness := SuperblockFor(cpu + 1, sizeId);
      if target == null {
        return 0, p, i, c;
      }
      ghost var fetched := book;
      block, i := TakeBlock(target, cpu + 1, sizeId, oldFullness);
      KeepsClassesChain(before, fetched, book);
      p := target.page;
      OnlyTouchesChain(before, fetched, book, p);
    }

    /** The superblock of heap `h` to take a block of class `c` from: one of its own with space,
        else one fetched for it. */
    method SuperblockFor(h: nat, c: nat) returns (target: Superblock?, oldFullness: nat)
      requires Valid() && 0 < h < used.Length && c < SMALL_CLASSES
      modifies this, space, used, binFirst, table.Values, seg`dsegHi
      ensures Valid() && book.live == old(book).live && KeepsClasses(old(book), book)
      ensures target == null ==>
                && book == old(book) && seg.dsegHi == old(seg.dsegHi) && seg.Used() + SB_SIZE > seg.dsegSize
      ensures target != null ==>
                && target.page in table && table[target.page] == target && target.page in book.sb
                && target.page in book.loc && book.loc[target.page] == Slot(h, c, oldFullness)
                && book.sb[target.page].heap == h && book.sb[target.page].cls == c && book.sb[target.page].used < Total(c)
                && ServedFrom(old(book), h, c, target.page) && OnlyTouches(old(book), book, target.page)
      ensures seg.dsegHi == old(seg.dsegHi) || seg.dsegHi == old(seg.dsegHi) + SB_SIZE
      ensures MayServe(old(book), h, c) ==> target != null && seg.dsegHi == old(seg.dsegHi)
      ensures fresh(table.Values - old(table.Values))
    {
      hide Inv, HeadersOk, HeadsOk, PagesObtained, Bin, Exhausted, Points, Reflects, Total, HasSpace, Fullest;
      target, oldFullness := FindTarget(h, c);
      if target == null {
        SearchIsComplete(book, h, c);
        target := FetchSuperblock(h, c);
        oldFullness := 1;
      } else {
        SearchFindsFullest(book, h, c, oldFullness, target.page);
        InBinFacts(book, target.page, Slot(h, c, oldFullness));
      }
    }

    // ------------------------------------------------------------ freeing

    /** The size class of a block size from the table. */
    method SizeIdOf(blockSize: int, ghost c: nat) returns (sid: nat)
      requires c < NSIZES && blockSize == SizeOf(c)
      ensures sid == c
    {
      sid := 0;
      while blockSize > SizeOf(sid)
        invariant sid <= c
        decreases c - sid
      {
        sid := sid + 1;
      }
    }

    /** The first superblock of heap `h` in an empty bin, else in a quarter-full bin. */
    method FindReturnable(h: nat) returns (target: Superblock?, c: nat)
      requires Mirrors() && Settled(book) && 0 < h < used.Length && book.used[h] < book.alloc[h] / FULLNESS
      ensures target != null && c < NSIZES && target.page in table && table[target.page] == target
      ensures target.page in book.loc && book.loc[target.page] == Slot(h, c, 1)
      ensures forall d: nat :: d < c ==> Slot(h, d, 1) in book.bins && book.bins[Slot(h, d, 1)] == []
    {
      hide Maps, Books, BinOk, HeadersOk, Reflects, PagesObtained, Total, Bin;
      ghost var p := EmptinessHasTarget(book, h);
      target, c := null, 0;
      for j := 0 to 2
        invariant target == null
        invariant j == 2 ==> forall d: nat :: d < NSIZES ==> Slot(h, d, 1) in book.bins && book.bins[Slot(h, d, 1)] == []
      {
        for i := 0 to NSIZES
          invariant target == null
          invariant j == 1 ==> forall d: nat :: d < i ==> Slot(h, d, 1) in book.bins && book.bins[Slot(h, d, 1)] == []
        {
          HeadInBin(book, Slot(h, i, j));
          HeadAt(Slot(h, i, j));
          if binFirst[h, i, j] != null {
            target, c := binFirst[h, i, j], i;
            if j == 0 { EmptyBin0(book, h, i); }
            return;
          }
        }
      }
      assert false;
    }

    /** Gives the superblock that the search finds to heap 0. */
    method ReturnSuperblock(h: nat) returns (ghost q: int)
      requires Valid() && MustReturn(book, h)
      modifies this`book, binFirst, space, used, table.Values
      ensures Valid() && book.live == old(book).live && KeepsClasses(old(book), book)
      ensures Returns(old(book), h, q, book)
    {
      hide Maps, Books, BinOk, HeadersOk, HeadsOk, PagesObtained, Total, Bin, Transfer, Reflects;
      var target, c := FindReturnable(h);
      q := target.page;
      assert q in book.bins[Slot(h, c, 1)];
      InBinFacts(book, q, Slot(h, c, 1));
      ReturnSettles(book, q, h);
      TransferBins(target, (h, c, 1), (0, c, 1));
    }

    /** Frees block `i` of superblock `p`, found from its address alone. If that leaves the heap
        too empty, the nearly empty superblock `q` goes back to heap 0. */
    method MmFree(ptr: int, ghost p: int, ghost i: nat) returns (ghost q: int)
      requires Valid() && (p, i) in book.live && p in book.sb && book.sb[p].cls < NSIZES
      requires ptr == Address(p, book.sb[p].cls, i)
      modifies this`book, binFirst, space, used, table.Values
      ensures Valid() && book.live == old(book).live - {(p, i)} && KeepsClasses(old(book), book)
      ensures Frees(old(book), p, i, q, book) && GivesBack(old(book), p, q, book)
    {
      hide Inv, HeadersOk, HeadsOk, PagesObtained, Bin, SizeOf, Place, Vacate, Transfer, Scale, Returns, GivesBack;
      ghost var before := book;
      q := 0;
      LiveBlockIndex(before, p, i);
      AddressRoundTrip(p, before.sb[p].cls, i);
      FreedFacts(before, p, i);
      HeaderAtPage(p);
      var page, offset := ptr / SB_SIZE, ptr % SB_SIZE;
      var sb := table[page];
      var hid := sb.heapId;
      var blockId := offset / sb.blockSize;
      var oldFullness := Bin(sb.usedBlocks, SB_SIZE / sb.blockSize);
      var sid := SizeIdOf(sb.blockSize, before.sb[p].cls);
      UnmarkBlock(sb, blockId);
      Rebin(sb, hid, sid, oldFullness);
      if hid == 0 {
        FreeGivesBack(before, p, i, q, book);
        return;
      }
      if used[hid] < space[hid] / FULLNESS && used[hid] < space[hid] - K * SB_SIZE {
        q := ReturnSuperblock(hid);
      }
      FreeGivesBack(before, p, i, q, book);
    }
  }

  lemma PageIsNew(table: map<int, Superblock>, hi: int, tmp: int)
    requires PagesObtained(table, hi) && tmp == hi + 1 && tmp % SB_SIZE == 0 && tmp > 0
    ensures tmp / SB_SIZE !in table && SB_SIZE * (tmp / SB_SIZE) == tmp && tmp / SB_SIZE > 0
    ensures PagesObtained(table, hi + SB_SIZE)
  {
  }
}
