/** The pool allocator itself: list roots and memory words changed in place. The ghost field
    `book` mirrors them and adds the ledger; every method says which step it is. */
module KHeap {
  import opened PageLayout
  import opened Chains
  import opened HeapState
  import opened HeapSafety
  import opened HeapFrames
  import opened BlockSteps
  import opened RefSteps
  import opened RefPageStep
  import opened PageSteps
  import opened ChunkSteps
  import opened ClientStep
  import opened BlockCount
  import opened Memlib
  import opened HeapPrivacy
  import opened BigSizes

  /** `k` is the smallest block type that holds `sz` bytes. */
  ghost predicate Smallest(sz: nat, k: nat) {
    k < NSIZES && sz <= SizeOf(k) && forall j: nat :: j < k ==> SizeOf(j) < sz
  }

  /** The heap need not grow for a request of `sz` bytes: for a small one, a listed page of its
      size has a free block or a recycled pageref has a page; for a big one, some free chunk has
      the pages. */
  ghost predicate ReadyFor(h: Heap, sz: nat) {
    if sz < LARGEST_SUBPAGE
    then HasFreeBlock(h, sz) || exists r :: r in h.recycledRefs && Paged(h, r)
    else Fits(h, BigPages(sz))
  }

  ghost predicate HasFreeBlock(h: Heap, sz: nat) {
    exists k: nat, r: int :: Smallest(sz, k) && k < |h.inUse| && r in h.inUse[k] && r in h.flist && h.flist[r] != []
  }

  /** Block `p` is of the kind that the size asks for, and not wasteful: small and less than twice
      as large as need be, or a chunk of the pages counted. */
  ghost predicate Suits(h: Heap, sz: nat, p: int) {
    && p in h.live
    && if sz < LARGEST_SUBPAGE
       then h.live[p].Small? && WORD_BYTES * Extent(h, p) < 2 * (if sz < 8 then 8 else sz)
       else h.live[p] == Big && Extent(h, p) == PAGE_WORDS * BigPages(sz) - 1
  }

  lemma SmallestIsTight(sz: nat, k: nat)
    requires Smallest(sz, k)
    ensures WORD_BYTES * BlockWords(k) < 2 * (if sz < 8 then 8 else sz)
    ensures forall j: nat :: Smallest(sz, j) ==> j == k
  {
    if k > 0 { assert SizeOf(k - 1) < sz; }
  }

  /** The heap's end after a chunk has been used or made. */
  lemma ChunkHi(h: Heap, n: int)
    requires Inv(h)
    ensures Fits(h, n) <==> !NoFit(h, n)
    ensures forall i: nat :: FirstFit(h, n, i) && 1 <= n ==> UseChunk(h, i, n).hi == h.hi && Fits(h, n)
    ensures CanGrow(h, n) ==> NewChunk(h, n).hi == h.hi + n
  {
    hide Inv, Carve, Unlink;
    forall i: nat | FirstFit(h, n, i) && 1 <= n ensures UseChunk(h, i, n).hi == h.hi && Fits(h, n) {
      assert h.bigFree[i] in h.bigFree;
      UseChunkHi(h, i, n);
    }
  }

  lemma UseChunkHi(h: Heap, i: nat, n: int)
    requires Inv(h) && i < |h.bigFree| && 1 <= n <= Word(h, h.bigFree[i])
    ensures UseChunk(h, i, n).hi == h.hi
  {
  }

  class Allocator {
    const seg: DataSegment
    const mem: array<int>        // indexed by word address
    const sizebases: array<int>  // heads of the lists of in-use pagerefs, one per block size
    var freshRefs: int
    var recycledRefs: int
    var bigchunks: int
    ghost var book: Heap

    /** The concrete fields are those of `book`, and the segment has handed out the pages
        below `hi`. */
    ghost predicate MirrorsUpTo(hi: int)
      reads this, mem, sizebases, seg
    {
      && seg.Valid()
      && mem != sizebases
      && seg.dsegLo == PAGE_BYTES * book.lo && seg.dsegHi + 1 == PAGE_BYTES * hi
      && seg.dsegLo + seg.dsegSize <= PAGE_BYTES * PAGE_LIMIT
      && WORD_BYTES * mem.Length == seg.dsegLo + seg.dsegSize
      && mem[..] == book.m && sizebases[..] == book.sizebases
      && freshRefs == book.freshHead && recycledRefs == book.recycledHead && bigchunks == book.bigHead
    }

    ghost predicate Mirrors()
      reads this, mem, sizebases, seg
    {
      MirrorsUpTo(book.hi)
    }

    ghost predicate Valid()
      reads this, mem, sizebases, seg
    {
      Mirrors() && Settled(book)
    }

    /** The segment can still supply `n` pages. */
    ghost predicate Room(n: int)
      reads seg
    {
      seg.Used() + PAGE_BYTES * n <= seg.dsegSize
    }

    // The roots are static and start out null; the segment has just been set up.
    constructor (s: DataSegment)
      requires s.Valid() && s.Used() == 0 && s.dsegLo + s.dsegSize <= PAGE_BYTES * PAGE_LIMIT
      ensures Valid() && book.live == map[] && seg == s && fresh(mem) && fresh(sizebases)
    {
      seg := s;
      mem := new int[PAGE_WORDS * (s.dsegLo / PAGE_BYTES + s.dsegSize / PAGE_BYTES)];
      sizebases := new int[NSIZES](_ => 0);
      freshRefs, recycledRefs, bigchunks := 0, 0, 0;
      new;
      EmptyHeapSettled(mem[..], s.dsegLo / PAGE_BYTES);
      book := EmptyHeap(mem[..], s.dsegLo / PAGE_BYTES);
    }

    lemma RoomMeansCanGrow(n: int)
      requires Mirrors() && 0 < n && Room(n)
      ensures CanGrow(book, n)
    {
    }

    // ------------------------------------------------------------ pagerefs

    method Bzero(base: int)
      requires 0 <= base && base + PAGE_WORDS <= mem.Length
      modifies mem
      ensures forall i :: 0 <= i < mem.Length ==>
                mem[i] == if base <= i < base + PAGE_WORDS then 0 else old(mem[i])
    {
      for j := 0 to PAGE_WORDS
        invariant forall i :: 0 <= i < mem.Length ==> mem[i] == if base <= i < base + j then 0 else old(mem[i])
      {
        mem[base + j] := 0;
      }
    }

    /** Links slots 1 to 127 of a zeroed page in order. */
    method LinkSlots(p: int)
      requires 0 <= p && PAGE_WORDS * p + PAGE_WORDS <= mem.Length
      requires forall i :: PAGE_WORDS * p <= i < PAGE_WORDS * p + PAGE_WORDS ==> mem[i] == 0
      modifies mem
      ensures mem[..] == RefPage(old(mem[..]), p)
    {
      hide LinkedUpTo, RefPage;
      var tmp := PAGE_WORDS * p + REF_WORDS;
      var nrefs := REFS_PER_PAGE - 1;
      forall w | 0 <= w < mem.Length ensures mem[w] == LinkedUpTo(mem[..], p, tmp, w) {
        NoneLinked(mem[..], p, w);
      }
      for i := 0 to nrefs - 1
        invariant tmp == PAGE_WORDS * p + REF_WORDS + REF_WORDS * i
        invariant forall w :: 0 <= w < mem.Length ==> mem[w] == LinkedUpTo(old(mem[..]), p, tmp, w)
      {
        mem[tmp + NEXT] := tmp + REF_WORDS;
        forall w | 0 <= w < mem.Length ensures mem[w] == LinkedUpTo(old(mem[..]), p, tmp + REF_WORDS, w) {
          NextSlot(old(mem[..]), p, tmp, w);
        }
        tmp := mem[tmp + NEXT];
      }
      mem[tmp + NEXT] := 0;
      forall w | 0 <= w < mem.Length ensures mem[w] == RefPage(old(mem[..]), p)[w] {
        LinkedComplete(old(mem[..]), p, w);
      }
    }

    method InitRefPage(p: int)
      requires 0 <= p && PAGE_WORDS * p + PAGE_WORDS <= mem.Length
      modifies mem
      ensures mem[..] == RefPage(old(mem[..]), p)
    {
      Bzero(PAGE_WORDS * p);
      ghost var zeroed := mem[..];
      LinkSlots(p);
      forall w | 0 <= w < mem.Length ensures RefPage(zeroed, p)[w] == RefPage(old(mem[..]), p)[w] {
        PageBounds(p, w);
      }
    }

    /** A pageref that already has a page if there is one, else a fresh one, else the first of
        a new page of them; null only when the segment is exhausted. */
    method AllocPageref() returns (ref: int)
      requires Mirrors() && Inv(book)
      modifies this, mem, seg
      ensures Mirrors() && Inv(book)
      ensures old(book).recycledRefs != [] ==>
                ref == old(book).recycledRefs[0] && book == PopRecycled(old(book))
      ensures old(book).recycledRefs == [] && old(book).freshRefs != [] ==>
                ref == old(book).freshRefs[0] && book == PopFresh(old(book))
      ensures old(book).recycledRefs == [] && old(book).freshRefs == [] ==>
                if old(Room(1)) then ref == PAGE_WORDS * old(book).hi && book == NewRefPage(old(book))
                else ref == 0 && book == old(book)
    {
      hide PageRefs, FreeLists, Chunks, Lives, RefPage, Page;
      if recycledRefs != 0 {
        ref := recycledRefs;
        recycledRefs := mem[recycledRefs + NEXT];
        PopRecycledInv(book);
        book := PopRecycled(book);
        return;
      }
      if freshRefs != 0 {
        ref := freshRefs;
        freshRefs := mem[freshRefs + NEXT];
        PopFreshInv(book);
        book := PopFresh(book);
        return;
      }
      var a := seg.MemSbrk(PAGE_BYTES);
      ref := a / WORD_BYTES;
      if ref != 0 {
        InitRefPage(a / PAGE_BYTES);
        freshRefs := ref + REF_WORDS;
        NewRefPageInv(book);
        book := NewRefPage(book);
      }
    }

    method FreePageref(p: int)
      requires Mirrors() && Inv(book) && p in book.role && book.role[p] == Held
      modifies this, mem
      ensures Mirrors() && book == Recycle(old(book), p) && Inv(book)
    {
      hide RefLists, PageRefs, FreeLists, Chunks, Lives, Page;
      RefWordsInHeap(book, p);
      RecycleInv(book, p);
      mem[p + NEXT] := recycledRefs;
      recycledRefs := p;
      book := Recycle(book, p);
    }

    /** Walks the list from `head` to `pr`; `prev` is the pageref before it, null at the front. */
    method Locate(pr: int, head: int, ghost s: seq<int>) returns (prev: int, ghost i: nat)
      requires Chain(mem[..], head, s, NEXT) && pr in s
      ensures i < |s| && s[i] == pr && prev == if i == 0 then 0 else s[i - 1]
    {
      i, prev := 0, 0;
      var guy := head;
      while guy != 0 && guy != pr
        invariant i <= |s| && guy == At(s, i) && prev == (if i == 0 then 0 else s[i - 1])
        invariant forall j :: 0 <= j < i ==> s[j] != pr
        decreases |s| - i
      {
        assert Linked(mem[..], s, NEXT, i);
        prev, guy := guy, mem[guy + NEXT];
        i := i + 1;
      }
    }

    /** Redirects what points to `pr` on its size list to the pageref after it. */
    method RemoveLists(pr: int, blktype: nat) returns (ghost i: nat)
      requires Mirrors() && Inv(book) && blktype < NSIZES && pr in book.inUse[blktype]
      requires forall x :: x in book.live ==> book.live[x] != Small(pr)
      modifies this, mem, sizebases
      ensures Mirrors() && Inv(book)
      ensures i < |old(book).inUse[blktype]| && old(book).inUse[blktype][i] == pr
      ensures book == Detach(old(book), blktype, i)
    {
      hide PageRefs, FreeLists, Chunks, Lives, Page, UnlinkMemory, UnlinkHead;
      assert SizeList(book, blktype);
      var prev;
      prev, i := Locate(pr, sizebases[blktype], book.inUse[blktype]);
      UnlinkStores(book.m, sizebases[blktype], book.inUse[blktype], NEXT, i);
      DetachInv(book, blktype, i);
      if prev == 0 {
        sizebases[blktype] := mem[pr + NEXT];
      } else {
        mem[prev + NEXT] := mem[pr + NEXT];
      }
      book := Detach(book, blktype, i);
    }

    // ------------------------------------------------------------ small blocks

    /** The smallest block size that holds `sz` bytes. */
    method BlockTypeFor(sz: nat) returns (k: nat)
      requires sz <= LARGEST_SUBPAGE
      ensures k < NSIZES && sz <= SizeOf(k)
      ensures forall j: nat :: j < k ==> SizeOf(j) < sz
    {
      k := 0;
      for i := 0 to NSIZES
        invariant forall j: nat :: j < i ==> SizeOf(j) < sz
        invariant 0 < i ==> SizeOf(i - 1) < sz
      {
        if sz <= SizeOf(i) {
          return i;
        }
      }
      assert false;
    }

    /** The first pageref of size list `k` whose page has a free block, or null. */
    method FindFree(k: nat) returns (pr: int)
      requires Mirrors() && Inv(book) && k < NSIZES
      ensures pr == 0 ==> forall r :: r in book.inUse[k] ==> r in book.flist && book.flist[r] == []
      ensures pr != 0 ==> pr in book.inUse[k] && pr in book.role && book.role[pr] == InUse(k)
                          && pr in book.flist && book.flist[pr] != []
    {
      hide PageRefs, Chunks, Lives, Page, PageOf, BlockType, BlockOn;
      ghost var s := book.inUse[k];
      assert SizeList(book, k);
      ghost var i: nat := 0;
      pr := sizebases[k];
      while pr != 0
        invariant i <= |s| && pr == At(s, i)
        invariant forall r :: r in s[..i] ==> r in book.flist && book.flist[r] == []
        decreases |s| - i
      {
        assert s[i] in s && FreeListOk(book, pr);
        RefWordsInHeap(book, pr);
        if mem[pr + NFREE] > 0 {
          return;
        }
        assert Linked(book.m, s, NEXT, i);
        pr := mem[pr + NEXT];
        i := i + 1;
      }
      assert s[..i] == s;
    }

    /** Hands out the first free block of `pr`'s page. */
    method DoAlloc(pr: int) returns (retptr: int)
      requires Mirrors() && Inv(book) && pr in book.role && book.role[pr].InUse?
      requires pr in book.flist && book.flist[pr] != []
      modifies this, mem
      ensures Mirrors() && Inv(book)
      ensures book == Take(old(book), pr) && retptr == old(book).flist[pr][0]
    {
      hide RefLists, PageRefs, Chunks, Lives, Page, PageOf, BlockType, BlockOn;
      assert FreeListOk(book, pr);
      RefWordsInHeap(book, pr);
      TakeInv(book, pr);
      ghost var s := book.flist[pr];
      assert Linked(book.m, s, 0, 0);
      retptr := mem[pr + FLIST];
      mem[pr + FLIST] := mem[retptr];
      mem[pr + NFREE] := mem[pr + NFREE] - 1;
      assert (mem[pr + FLIST] != 0) == (mem[pr + NFREE] > 0);
      book := Take(book, pr);
    }

    /** Threads page `p` into a free list of blocks of type `k`; `fl` is its last block. */
    method BuildFreelist(p: int, k: nat) returns (fl: int)
      requires 0 < p && PAGE_WORDS * p + PAGE_WORDS <= mem.Length && k < NSIZES
      modifies mem
      ensures mem[..] == ThreadedPage(old(mem[..]), p, k) && fl == NthBlock(p, k, BlocksPerPage(k) - 1)
    {
      hide Scale, BlocksPerPage, BlockOn, NthBlock;
      fl := PAGE_WORDS * p;
      NthBlockZero(p, k);
      BlockInPage(p, k, 0);
      mem[fl] := 0;
      for i := 1 to BlocksPerPage(k)
        invariant fl == NthBlock(p, k, i - 1)
        invariant forall w :: 0 <= w < mem.Length ==> mem[w] == ThreadedUpTo(old(mem[..]), p, k, i, w)
      {
        BlockInPage(p, k, i);
        fl := NthBlock(p, k, i);
        mem[fl] := NthBlock(p, k, i - 1);
        forall w | 0 <= w < mem.Length ensures mem[w] == ThreadedUpTo(old(mem[..]), p, k, i + 1, w) {
          if BlockOn(w, p, k) { NthOfIndex(w, p, k); }
        }
      }
      forall w | 0 <= w < mem.Length ensures mem[w] == ThreadedPage(old(mem[..]), p, k)[w] {
        ThreadedComplete(old(mem[..]), p, k, w);
      }
    }

    /** Cuts page `p` into blocks of type `k` and puts its pageref on the size list. */
    method FillPage(pr: int, p: int, k: nat)
      requires Inv(book) && k < NSIZES && Installable(book, pr, p)
      requires MirrorsUpTo(if p == book.hi then book.hi + 1 else book.hi)
      modifies this, mem, sizebases
      ensures Mirrors() && Inv(book) && book == Install(old(book), pr, p, k)
    {
      hide RefLists, PageRefs, FreeLists, Chunks, Lives, BlockOn, NthBlock, MkPab, PageAddr, PageOf, ThreadedPage, Page;
      InstallStores(book, pr, p, k);
      InstallableFree(book, pr, p);
      mem[pr + PAB] := MkPab(PAGE_BYTES * p, k);
      mem[pr + NFREE] := PAGE_BYTES / SizeOf(k);
      var fl := BuildFreelist(p, k);
      mem[pr + FLIST] := fl;
      mem[pr + NEXT] := sizebases[k];
      sizebases[k] := pr;
      InstallInv(book, pr, p, k);
      book := Install(book, pr, p, k);
    }

    /** Gives held pageref `pr` a page if it has none and fills the page. Without a page the
        pageref is recycled. */
    method NewPage(pr: int, k: nat) returns (ok: bool)
      requires Mirrors() && Inv(book) && k < NSIZES && pr in book.role && book.role[pr] == Held
      modifies this, mem, sizebases, seg
      ensures Mirrors() && Inv(book)
      ensures ok <==> old(PageOfRef(book, pr) != 0 || Room(1))
      ensures ok ==> var p := if PageOfRef(old(book), pr) == 0 then old(book).hi else PageOfRef(old(book), pr);
                     Installable(old(book), pr, p) && book == Install(old(book), pr, p, k)
      ensures !ok ==> book == Recycle(old(book), pr) && !Room(1)
    {
      hide RefLists, PageRefs, FreeLists, Chunks, Lives, PageAddr, PageOf, Page, Install, Recycle;
      RefWordsInHeap(book, pr);
      var prpage := PageAddr(mem[pr + PAB]);
      PageAddrOf(mem[pr + PAB]);
      if prpage == 0 {
        if Room(1) { RoomMeansCanGrow(1); }
        prpage := seg.MemSbrk(PAGE_BYTES);
        if prpage == 0 {
          FreePageref(pr);
          return false;
        }
      } else {
        InstallableFree(book, pr, prpage / PAGE_BYTES);
        PageRefOwned(book, pr);
      }
      FillPage(pr, prpage / PAGE_BYTES, k);
      ok := true;
    }

    /** Small requests: a page of the right size with a free block if there is one, else a
        recycled page, else a new one. `k` is the block type. */
    method SubpageKmalloc(sz: nat) returns (p: int, ghost k: nat)
      requires Valid() && sz <= LARGEST_SUBPAGE
      modifies this, mem, sizebases, seg
      ensures Valid() && k < NSIZES && sz <= SizeOf(k) && forall j: nat :: j < k ==> SizeOf(j) < sz
      ensures p != 0 ==> Allocates(old(book), book, p) && book.live[p].Small? && Extent(book, p) == BlockWords(k)
      ensures p == 0 ==> !Room(1) && book.live == old(book).live && KeepsAllBut(old(book), book, 0)
      ensures (exists r :: r in old(book).inUse[k] && r in old(book).flist && old(book).flist[r] != [])
              ==> p != 0 && book.hi == old(book).hi
      ensures (exists r :: r in old(book).recycledRefs && Paged(old(book), r)) ==> p != 0 && book.hi == old(book).hi
    {
      hide Inv, BlocksPerPage, Install, Recycle, Take, PopRecycled, PopFresh, NewRefPage, PageOf;
      SettledParts(book);
      ghost var h0 := book;
      KeepsSelf(h0);
      forall r | r in h0.recycledRefs && Paged(h0, r) ensures h0.recycledRefs != [] && Paged(h0, h0.recycledRefs[0]) {
        PagedHead(h0, r);
      }
      hide PagedFirst;
      var blktype := BlockTypeFor(sz);
      k := blktype;
      var pr := FindFree(blktype);
      if pr == 0 {
        pr := AllocPageref();
        if pr == 0 {
          return 0, k;
        }
        HandedOut(h0, book, pr);
        ghost var h1 := book;
        var ok := NewPage(pr, blktype);
        if !ok {
          RecycleSettles(h1, pr);
          KeepsChain(h0, h1, book, 0);
          return 0, k;
        }
        if PageOfRef(h1, pr) != 0 { PageRefOwned(h1, pr); }
        NewPageReady(h0, h1, book, pr, if PageOfRef(h1, pr) == 0 then h1.hi else PageOfRef(h1, pr), k);
      } else {
        SettledIsSettledBut(book, pr);
      }
      TakeAllocates(h0, book, pr, k);
      StepHi(book, pr);
      p := DoAlloc(pr);
    }

    /** The pageref on size list `k` whose page contains `ptr`, or null. */
    method SearchList(ptr: int, k: nat) returns (pr: int)
      requires Mirrors() && Inv(book) && k < NSIZES
      ensures pr != 0 ==> pr in book.inUse[k] && Page(ptr) == PageOfRef(book, pr)
      ensures pr == 0 ==> forall r :: r in book.inUse[k] ==> Page(ptr) != PageOfRef(book, r)
    {
      hide PageRefs, FreeLists, Chunks, Lives, PageOf, PageAddr, Page;
      ghost var s := book.inUse[k];
      assert SizeList(book, k);
      ghost var i: nat := 0;
      pr := sizebases[k];
      while pr != 0
        invariant i <= |s| && pr == At(s, i)
        invariant forall j :: 0 <= j < i ==> Page(ptr) != PageOfRef(book, s[j])
        decreases |s| - i
      {
        assert s[i] in s;
        RefWordsInHeap(book, pr);
        var prpage := PageAddr(mem[pr + PAB]);
        PageAddrOf(mem[pr + PAB]);
        PageBounds(PageOfRef(book, pr), ptr);
        if prpage <= WORD_BYTES * ptr < prpage + PAGE_BYTES {
          return;
        }
        assert Linked(book.m, s, NEXT, i);
        pr := mem[pr + NEXT];
        i := i + 1;
      }
    }

    /** The in-use pageref whose page contains `ptr`, or null. */
    method FindPage(ptr: int) returns (pr: int)
      requires Mirrors() && Inv(book)
      ensures pr != 0 ==> pr in book.role && book.role[pr].InUse? && Page(ptr) == PageOfRef(book, pr)
      ensures pr == 0 ==> forall r :: r in book.role && book.role[r].InUse? ==> Page(ptr) != PageOfRef(book, r)
    {
      hide FreeLists, Chunks, Lives, PageOf, PageAddr, Page, BlockType;
      pr := 0;
      var i := 0;
      while i < NSIZES && pr == 0
        invariant 0 <= i <= NSIZES
        invariant pr != 0 ==> pr in book.role && book.role[pr].InUse? && Page(ptr) == PageOfRef(book, pr)
        invariant pr == 0 ==> forall r :: r in book.role && book.role[r].InUse? && book.role[r].k < i ==> Page(ptr) != PageOfRef(book, r)
      {
        assert SizeList(book, i);
        pr := SearchList(ptr, i);
        i := i + 1;
      }
      if pr == 0 {
        forall r | r in book.role && book.role[r].InUse? ensures Page(ptr) != PageOfRef(book, r) {
          assert PageRefOk(book, r);
        }
      }
    }

    method FillDeadbeef(a: int, n: nat)
      requires 0 <= a && a + n <= mem.Length
      modifies mem
      ensures mem[..] == Deadbeef(old(mem[..]), a, n)
    {
      for i := 0 to n
        invariant forall w :: 0 <= w < mem.Length ==> mem[w] == if a <= w < a + i then DEADBEEF else old(mem[w])
      {
        mem[a + i] := DEADBEEF;
      }
    }

    /** Pushes the overwritten block on its page's free list. */
    method PushBlock(ptr: int, pr: int, k: nat)
      requires Mirrors() && Inv(book) && ptr in book.live && book.live[ptr] == Small(pr)
      requires pr in book.role && book.role[pr] == InUse(k) && k < NSIZES
      modifies this, mem
      ensures Mirrors() && Inv(book) && book == Put(old(book), ptr)
    {
      hide RefLists, PageRefs, FreeLists, Chunks, Page, PageOf, BlockOn, BlockType, Deadbeef;
      assert LiveOk(book, ptr);
      LiveWordInMemory(book, ptr);
      RefWordsInHeap(book, pr);
      SmallBlockInMemory(book, ptr);
      PutInv(book, ptr);
      ghost var h := book;
      FillDeadbeef(ptr, BlockWords(k));
      PutReadsUnfilled(h, ptr);
      mem[ptr] := mem[pr + FLIST];
      mem[pr + FLIST] := ptr;
      mem[pr + NFREE] := mem[pr + NFREE] + 1;
      book := Put(book, ptr);
    }

    /** A pageref whose page has become wholly free leaves its size list and is recycled. */
    method RecycleIfFree(pr: int, k: nat)
      requires Mirrors() && SettledBut(book, pr) && pr in book.role && book.role[pr] == InUse(k) && k < NSIZES
      modifies this, mem, sizebases
      ensures Valid() && book.hi == old(book).hi && book.live == old(book).live && KeepsAllBut(old(book), book, 0)
      ensures forall w {:trigger Same(old(book), book, w)} ::
                Page(w) in old(book).owner && old(book).owner[Page(w)] != Refs ==> Same(old(book), book, w)
    {
      hide RefLists, Chunks, Lives, PageRefs, Page, PageOf, BlockOn, BlocksPerPage, Detach, Recycle;
      ghost var h1 := book;
      assert FreeListOk(h1, pr);
      RefWordsInHeap(h1, pr);
      FullIffNoneLive(h1, pr);
      if mem[pr + NFREE] == BlocksPerPage(k) {
        FullListNoneLive(h1, pr);
        InUseListed(h1, pr, k);
        ghost var i := RemoveLists(pr, k);
        DetachSettles(h1, k, i);
        DetachRoots(h1, k, i);
        DetachLeads(h1, k, i);
        ghost var h2 := book;
        FreePageref(pr);
        RecycleSettles(h2, pr);
        RecycleHi(h2, pr);
        KeepsChain(h1, h2, book, 0);
        forall w | Page(w) in h1.owner && h1.owner[Page(w)] != Refs ensures Same(h1, book, w) {
          DetachRecycleWord(h1, k, i, w);
        }
      } else {
        PartlyUsedSettles(h1, pr);
        KeepsSelf(h1);
      }
    }

    /** Frees a small block and returns 0; returns -1 for a pointer on none of our pages. */
    method SubpageKfree(ptr: int) returns (r: int)
      requires Valid() && ptr in book.live
      modifies this, mem, sizebases
      ensures Valid() && book.hi == old(book).hi
      ensures old(book).live[ptr].Small? ==>
                r == 0 && Frees(old(book), book, ptr) && Overwritten(book, ptr, Extent(old(book), ptr))
      ensures old(book).live[ptr] == Big ==> r == -1 && book == old(book)
    {
      hide RefLists, FreeLists, Chunks, Lives, PageRefs, Page, PageOf, PageAddr, BlockOn, BlocksPerPage, Put, Overwritten, Extent;
      var pr := FindPage(ptr);
      FoundPage(book, ptr, pr);
      if pr == 0 {
        return -1;
      }
      RefWordsInHeap(book, pr);
      var blktype := BlockType(mem[pr + PAB]);
      var offset := WORD_BYTES * ptr - PageAddr(mem[pr + PAB]);
      PageAddrOf(mem[pr + PAB]);
      BlockOnIsAlignment(ptr, PageOfRef(book, pr), blktype);
      if offset >= PAGE_BYTES || offset % SizeOf(blktype) != 0 {
        assert false;
      }
      ghost var h0 := book;
      PutSettles(h0, ptr);
      PutFacts(h0, ptr);
      PutOverwrites(h0, ptr);
      PushBlock(ptr, pr, blktype);
      ghost var h1 := book;
      RecycleIfFree(pr, blktype);
      FreesChain(h0, h1, book, ptr);
      StaysOverwritten(h0, h1, book, ptr);
      r := 0;
    }

    // ------------------------------------------------------------ big blocks

    /** The first free chunk of at least `n` pages, with its predecessor, or null. */
    method FindChunk(n: int) returns (prev: int, tmp: int, ghost i: nat)
      requires Mirrors() && Inv(book)
      ensures i <= |book.bigFree| && tmp == At(book.bigFree, i)
      ensures prev == if i == 0 then 0 else book.bigFree[i - 1]
      ensures tmp == 0 <==> i == |book.bigFree|
      ensures forall j :: 0 <= j < i ==> Word(book, book.bigFree[j]) < n
      ensures i < |book.bigFree| ==> n <= Word(book, book.bigFree[i])
    {
      hide RefLists, PageRefs, FreeLists, Lives, Page;
      ghost var s := book.bigFree;
      i, prev, tmp := 0, 0, bigchunks;
      while tmp != 0
        invariant i <= |s| && tmp == At(s, i) && prev == (if i == 0 then 0 else s[i - 1])
        invariant forall j :: 0 <= j < i ==> Word(book, s[j]) < n
        decreases |s| - i
      {
        FreeChunkFacts(book, i);
        if mem[tmp] >= n {
          return;
        }
        assert Linked(book.m, s, 1, i);
        prev, tmp := tmp, mem[tmp + 1];
        i := i + 1;
      }
    }

    /** Cuts the last `npages` pages off a larger free chunk. */
    method CutTail(tmp: int, npages: int, ghost i: nat) returns (result: int)
      requires Valid() && i < |book.bigFree| && tmp == book.bigFree[i] && 1 <= npages < Word(book, tmp)
      modifies this`book, mem
      ensures Valid() && book == Carve(old(book), i, npages)
      ensures Allocates(old(book), book, result) && book.live[result] == Big
      ensures Extent(book, result) == PAGE_WORDS * npages - 1
    {
      hide RefLists, PageRefs, FreeLists, Lives, Chunks, Page, IsChunk, PartlyUsed, Allocates, Extent;
      CarveAllocates(book, i, npages);
      CarveBounds(book, i, npages);
      var rest := mem[tmp] - npages;
      var hdrPtr := tmp + PAGE_WORDS * rest;
      mem[tmp] := rest;
      mem[hdrPtr] := npages;
      result := hdrPtr + 1;
      book := Carve(book, i, npages);
    }

    /** Unlinks a free chunk that fits exactly. */
    method TakeWhole(prev: int, tmp: int, ghost i: nat) returns (result: int)
      requires Valid() && i < |book.bigFree| && tmp == book.bigFree[i]
      requires prev == if i == 0 then 0 else book.bigFree[i - 1]
      modifies this, mem
      ensures Valid() && book == Unlink(old(book), i)
      ensures Allocates(old(book), book, result) && book.live[result] == Big
      ensures Extent(book, result) == PAGE_WORDS * Word(old(book), tmp) - 1
    {
      hide RefLists, PageRefs, FreeLists, Lives, Chunks, Page, IsChunk, UnlinkMemory, UnlinkHead, PartlyUsed, Allocates, Extent;
      UnlinkAllocates(book, i);
      UnlinkStoresHere(book, i);
      if prev != 0 {
        mem[prev + 1] := mem[tmp + 1];
      } else {
        bigchunks := mem[tmp + 1];
      }
      result := tmp + 1;
      book := Unlink(book, i);
    }

    method TakeFromChunk(prev: int, tmp: int, npages: int, ghost i: nat) returns (result: int)
      requires Valid() && i < |book.bigFree| && tmp == book.bigFree[i] && 1 <= npages <= Word(book, tmp)
      requires prev == if i == 0 then 0 else book.bigFree[i - 1]
      modifies this, mem
      ensures Valid() && book == UseChunk(old(book), i, npages)
      ensures Allocates(old(book), book, result) && book.live[result] == Big
      ensures Extent(book, result) == PAGE_WORDS * npages - 1
    {
      hide RefLists, PageRefs, FreeLists, Lives, Chunks, IsChunk, PartlyUsed, Allocates, Extent, Carve, Unlink;
      FreeChunkFacts(book, i);
      if mem[tmp] > npages {
        result := CutTail(tmp, npages, i);
      } else {
        result := TakeWhole(prev, tmp, i);
      }
    }

    /** New pages for a chunk, or null if the segment has too few. */
    method GrowChunk(npages: int) returns (result: int)
      requires Valid() && 1 <= npages
      modifies this, mem, seg
      ensures Valid()
      ensures old(Room(npages)) ==>
                && CanGrow(old(book), npages) && book == NewChunk(old(book), npages)
                && Allocates(old(book), book, result) && book.live[result] == Big
                && Extent(book, result) == PAGE_WORDS * npages - 1
      ensures !old(Room(npages)) ==> result == 0 && book == old(book) && !Room(npages)
    {
      hide RefLists, PageRefs, FreeLists, Lives, Chunks, Page, IsChunk, PartlyUsed, Allocates, Extent;
      if Room(npages) { RoomMeansCanGrow(npages); }
      var a := seg.MemSbrk(npages * PAGE_BYTES);
      if a == 0 {
        return 0;
      }
      NewChunkAllocates(book, npages);
      mem[a / WORD_BYTES] := npages;
      result := a / WORD_BYTES + 1;
      book := NewChunk(book, npages);
    }

    /** A count below one: the first chunk seems large enough to split; without one, the segment
        is asked for a range of no or negative length. */
    method NoRequest(npages: int) returns (fate: Fate)
      requires Valid() && npages < 1
      ensures if book.bigFree == [] then fate == Stops
              else fate == Misplaces(WORD_BYTES * book.bigFree[0] + TailOffset(Word(book, book.bigFree[0]), npages))
    {
      hide RefLists, PageRefs, FreeLists, Lives;
      var prev, tmp;
      ghost var i;
      prev, tmp, i := FindChunk(npages);
      if tmp == 0 {
        if book.bigFree != [] { FirstIsChunk(book); }
        return Stops;
      }
      FirstIsChunk(book);
      assert mem[tmp] > npages;
      return Misplaces(WORD_BYTES * tmp + TailOffset(mem[tmp], npages));
    }

    /** Big requests: the first free chunk that is large enough, cut to size if it is larger;
        new pages only if there is none. A page count that is not positive is no request at all:
        the method ends where the program would go wrong. */
    method BigKmalloc(sz: nat) returns (result: int, fate: Fate)
      requires Valid()
      modifies this, mem, seg
      ensures Valid()
      ensures fate == Served <==> 1 <= BigPages(sz)
      ensures fate != Served ==> result == 0 && book == old(book) && (fate.Stops? <==> book.bigFree == [])
      ensures fate.Misplaces? ==>
                fate.at == WORD_BYTES * book.bigFree[0] + TailOffset(Word(book, book.bigFree[0]), BigPages(sz))
      ensures result != 0 ==>
                && Allocates(old(book), book, result) && book.live[result] == Big
                && Extent(book, result) == PAGE_WORDS * BigPages(sz) - 1
      ensures forall i: nat :: fate == Served && FirstFit(old(book), BigPages(sz), i) ==>
                result != 0 && book == UseChunk(old(book), i, BigPages(sz))
      ensures fate == Served && NoFit(old(book), BigPages(sz)) && old(Room(BigPages(sz))) ==>
                CanGrow(old(book), BigPages(sz)) && result != 0 && book == NewChunk(old(book), BigPages(sz))
      ensures fate == Served && NoFit(old(book), BigPages(sz)) && !old(Room(BigPages(sz))) ==>
                result == 0 && book == old(book) && !Room(BigPages(sz))
    {
      var npages := BigPages(sz);
      if npages < 1 {
        result := 0;
        fate := NoRequest(npages);
        return;
      }
      hide Inv, BigPages, PartlyUsed, NewChunk, Extent, UseChunk;
      fate := Served;
      var prev, tmp;
      ghost var i;
      prev, tmp, i := FindChunk(npages);
      if tmp != 0 {
        FirstFitUnique(book, npages, i);
        result := TakeFromChunk(prev, tmp, npages, i);
      } else {
        NoFitHere(book, npages);
        result := GrowChunk(npages);
      }
    }

    method BigKfree(ptr: int)
      requires Valid() && ptr in book.live && book.live[ptr] == Big
      modifies this, mem
      ensures Valid() && Frees(old(book), book, ptr) && book == Release(old(book), ptr)
    {
      hide RefLists, PageRefs, FreeLists, Chunks, Page, PartlyUsed;
      ReleaseFrees(book, ptr);
      BigHeader(book, ptr);
      ChunkHeader(book, ptr - 1);
      var hdrPtr := ptr - 1;
      mem[hdrPtr + 1] := bigchunks;
      bigchunks := hdrPtr;
      book := Release(book, ptr);
    }

    // ------------------------------------------------------------ the interface

    /** A request of `sz` bytes. A null result means the segment is exhausted. Exactly the
        requests up to `LARGEST_REQUEST` get a block that holds them, and exactly those whose
        page count is positive get an answer at all. Sizes below 2048 are served from the pages
        of small blocks and the others by chunks, and the heap grows only when it must. */
    method MmMalloc(sz: nat) returns (result: int, fate: Fate)
      requires Valid()
      modifies this, mem, sizebases, seg
      ensures Valid()
      ensures fate == Served <==> sz < LARGEST_SUBPAGE || 1 <= BigPages(sz)
      ensures fate != Served ==> result == 0 && book == old(book) && (fate.Stops? <==> book.bigFree == [])
      ensures fate.Misplaces? ==>
                fate.at == WORD_BYTES * book.bigFree[0] + TailOffset(Word(book, book.bigFree[0]), BigPages(sz))
      ensures result != 0 ==>
                && Allocates(old(book), book, result) && Suits(book, sz, result)
                && (sz <= LARGEST_REQUEST <==> sz <= WORD_BYTES * Extent(book, result))
      ensures fate == Served && result == 0 ==>
                && book.live == old(book).live && KeepsAllBut(old(book), book, 0)
                && !Room(if sz >= LARGEST_SUBPAGE then BigPages(sz) else 1)
      ensures fate == Served && ReadyFor(old(book), sz) ==> result != 0 && book.hi == old(book).hi
      ensures sz >= LARGEST_SUBPAGE && result != 0 && !ReadyFor(old(book), sz) ==> book.hi == old(book).hi + BigPages(sz)
    {
      if sz >= LARGEST_SUBPAGE {
        BigPagesHold(sz);
        KeepsSelf(book);
        BigKmallocCases(book, BigPages(sz));
        ChunkHi(book, BigPages(sz));
        hide Inv, Allocates, BigPages, UseChunk, NewChunk, FirstFit, NoFit;
        result, fate := BigKmalloc(sz);
      } else {
        hide Inv, Allocates, BigPages;
        ghost var k;
        result, k := SubpageKmalloc(sz);
        SmallestIsTight(sz, k);
        fate := Served;
      }
    }

    /** Null is ignored; any live pointer is given back to the allocator it came from. */
    method MmFree(ptr: int)
      requires Valid() && (ptr == 0 || ptr in book.live)
      modifies this, mem, sizebases
      ensures Valid() && book.hi == old(book).hi
      ensures if ptr == 0 then book == old(book) else Frees(old(book), book, ptr)
      ensures ptr != 0 && old(book).live[ptr].Small? ==> Overwritten(book, ptr, Extent(old(book), ptr))
      ensures ptr != 0 && old(book).live[ptr] == Big ==> ptr - 1 in book.bigFree && Word(book, ptr - 1) == Word(old(book), ptr - 1)
    {
      if ptr == 0 {
        NullNotLive(book);
        return;
      }
      var r := SubpageKfree(ptr);
      if r != 0 {
        ghost var h := book;
        BigKfree(ptr);
        ReleaseHeader(h, ptr);
      }
    }

    /** A caller's own write into one of its blocks. */
    method Store(ghost x: int, w: int, v: int)
      requires Valid() && x in book.live && Within(book, x, w)
      modifies this`book, mem
      ensures Valid() && book == Write(old(book), x, w, v)
    {
      WriteInv(book, x, w, v);
      mem[w] := v;
      book := Write(book, x, w, v);
    }

    method Load(ghost x: int, w: int) returns (v: int)
      requires Valid() && x in book.live && Within(book, x, w)
      ensures v == Word(book, w)
    {
      LiveWordOwner(book, x, w);
      v := mem[w];
    }
  }

  /** Word `w` once the slots before `tmp` are linked. */
  ghost function LinkedUpTo(m: seq<int>, p: int, tmp: int, w: int): int
    requires 0 <= w < |m|
  {
    if PAGE_WORDS * p < w < tmp && w % REF_WORDS == 0 then w + REF_WORDS else m[w]
  }

  lemma LinkedComplete(m: seq<int>, p: int, w: int)
    requires 0 <= p && PAGE_WORDS * p + PAGE_WORDS <= |m| && 0 <= w < |m|
    requires forall i :: PAGE_WORDS * p <= i < PAGE_WORDS * p + PAGE_WORDS ==> m[i] == 0
    ensures var last := PAGE_WORDS * p + PAGE_WORDS - REF_WORDS;
            RefPage(m, p)[w] == if w == last then 0 else LinkedUpTo(m, p, last, w)
  {
    hide Page;
    PageBounds(p, w);
  }

  lemma NoneLinked(m: seq<int>, p: int, w: int)
    requires 0 <= w < |m|
    ensures LinkedUpTo(m, p, PAGE_WORDS * p + REF_WORDS, w) == m[w]
  {
  }

  lemma NextSlot(m: seq<int>, p: int, tmp: int, w: int)
    requires tmp % REF_WORDS == 0 && PAGE_WORDS * p < tmp && 0 <= w < |m|
    ensures LinkedUpTo(m, p, tmp + REF_WORDS, w) == if w == tmp then tmp + REF_WORDS else LinkedUpTo(m, p, tmp, w)
  {
  }

  lemma PageRefOwned(h: Heap, r: int)
    requires Inv(h) && r in h.role && h.role[r] == Held && PageOfRef(h, r) != 0
    ensures PageOfRef(h, r) != h.hi
  {
    assert PageRefOk(h, r);
  }

  /** Word `w` once the first `n` blocks of page `p` are threaded. */
  ghost function ThreadedUpTo(m: seq<int>, p: int, k: nat, n: int, w: int): int
    requires k < NSIZES && 0 <= w < |m|
  {
    if BlockOn(w, p, k) && BlockIndex(w, p, k) < n
    then (if BlockIndex(w, p, k) == 0 then 0 else NthBlock(p, k, BlockIndex(w, p, k) - 1))
    else m[w]
  }

  lemma NthBlockZero(p: int, k: nat)
    requires k < NSIZES
    ensures NthBlock(p, k, 0) == PAGE_WORDS * p
  {
  }

  lemma BlockInPage(p: int, k: nat, j: int)
    requires k < NSIZES && 0 <= j < BlocksPerPage(k)
    ensures var a := NthBlock(p, k, j);
            PAGE_WORDS * p <= a < PAGE_WORDS * p + PAGE_WORDS && BlockOn(a, p, k) && BlockIndex(a, p, k) == j
    ensures forall w :: BlockOn(w, p, k) && BlockIndex(w, p, k) == j ==> w == NthBlock(p, k, j)
    ensures forall w :: BlockOn(w, p, k) ==> 0 <= BlockIndex(w, p, k)
  {
    hide Scale, Unscale;
    NthBlockOn(p, k, j);
    BlockStaysOnPage(NthBlock(p, k, j), p, k);
    forall w | BlockOn(w, p, k) ensures 0 <= BlockIndex(w, p, k) { BlockIndexInRange(w, p, k); }
  }

  lemma ThreadedComplete(m: seq<int>, p: int, k: nat, w: int)
    requires k < NSIZES && 0 <= w < |m| && 0 < p && PAGE_WORDS * p + PAGE_WORDS <= |m|
    ensures ThreadedUpTo(m, p, k, BlocksPerPage(k), w) == ThreadedPage(m, p, k)[w]
  {
    hide Scale, Unscale, NthBlock, BlockOn, BlockIndex, BlocksPerPage;
    if BlockOn(w, p, k) {
      BlockIndexInRange(w, p, k);
      NthOfIndex(w, p, k);
      ThreadedWord(m, p, k, BlockIndex(w, p, k));
    }
  }
}
