/** Whole runs: a caller that allocates, writes, reads and frees in any order has every request
    served that the segment has room for, and always finds in each block exactly what it last
    wrote there. */
module HeapSession {
  import opened PageLayout
  import opened HeapState
  import opened HeapSafety
  import opened PageSteps
  import opened HeapPrivacy
  import opened ClientStep
  import opened BigSizes
  import opened KHeap

  datatype Op = Malloc(sz: nat) | Free(i: nat) | Put(i: nat, off: nat, v: int) | Get(i: nat, off: nat)

  /** A block as its user knows it: where it is, how many bytes were asked for, and the words
      written since. */
  datatype Block = Block(p: int, sz: nat, written: map<nat, int>)

  /** What the caller expects after `op`; `p` is the pointer that a `Malloc` returned. */
  ghost function Expected(c: seq<Block>, op: Op, p: int): seq<Block> {
    match op
    case Malloc(sz) => if p == 0 then c else c + [Block(p, sz, map[])]
    case Free(i) => if i < |c| then c[..i] + c[i + 1..] else c
    case Put(i, off, v) =>
      if i < |c| && WORD_BYTES * (off + 1) <= c[i].sz
      then c[i := c[i].(written := c[i].written[off := v])]
      else c
    case Get(i, off) => c
  }

  /** The blocks held after `ops`, if `rs` are their results. */
  ghost function Replay(ops: seq<Op>, rs: seq<int>): seq<Block>
    requires |rs| == |ops|
  {
    if ops == [] then [] else Expected(Replay(ops[..|ops| - 1], rs[..|ops| - 1]), ops[|ops| - 1], rs[|ops| - 1])
  }

  /** The pages that a request may need. */
  function PagesFor(sz: nat): int {
    if sz >= LARGEST_SUBPAGE then BigPages(sz) else 1
  }

  /** How the allocator carries out `op` for the holder of the blocks `c`: what it returns, and
      the state before and after. A request is refused only when the memory has no room for the
      pages; operations on blocks that are not held, or past their end, are not passed on. */
  ghost predicate Serves(h: Heap, c: seq<Block>, op: Op, r: int, h': Heap) {
    match op
    case Malloc(sz) =>
      && (if r != 0 then Allocates(h, h', r) && sz <= WORD_BYTES * Extent(h', r) && Suits(h', sz, r)
          else h'.live == h.live && KeepsAllBut(h, h', 0) && !CanGrow(h', PagesFor(sz)))
      && (ReadyFor(h, sz) ==> r != 0 && h'.hi == h.hi)
      && (r != 0 && sz >= LARGEST_SUBPAGE ==>
            WORD_BYTES * Extent(h', r) < sz + PAGE_BYTES && h'.hi == if ReadyFor(h, sz) then h.hi else h.hi + PagesFor(sz))
    case Free(i) =>
      r == 0 && if i < |c| then Frees(h, h', c[i].p) && h'.hi == h.hi else h' == h
    case Put(i, off, v) =>
      && r == 0
      && if i < |c| && WORD_BYTES * (off + 1) <= c[i].sz
         then Inv(h) && c[i].p in h.live && Within(h, c[i].p, c[i].p + off) && h' == Write(h, c[i].p, c[i].p + off, v)
         else h' == h
    case Get(i, off) =>
      h' == h && r == if i < |c| && WORD_BYTES * (off + 1) <= c[i].sz then Word(h, c[i].p + off) else 0
  }

  ghost predicate ServedAt(hs: seq<Heap>, ops: seq<Op>, rs: seq<int>, n: int)
    requires |hs| == |ops| + 1 && |rs| == |ops| && 0 <= n < |ops|
  {
    Serves(hs[n], Replay(ops[..n], rs[..n]), ops[n], rs[n], hs[n + 1])
  }

  ghost predicate AgreesAt(hs: seq<Heap>, ops: seq<Op>, rs: seq<int>, n: int)
    requires |hs| == |ops| + 1 && |rs| == |ops| && 0 <= n <= |ops|
  {
    Agrees(hs[n], Replay(ops[..n], rs[..n]))
  }

  /** The states `hs` that the operations lead through, one after the other. */
  ghost predicate Trace(hs: seq<Heap>, ops: seq<Op>, rs: seq<int>) {
    && |hs| == |ops| + 1 && |rs| == |ops|
    && (forall n {:trigger ServedAt(hs, ops, rs, n)} :: 0 <= n < |ops| ==> ServedAt(hs, ops, rs, n))
    && (forall n {:trigger AgreesAt(hs, ops, rs, n)} :: 0 <= n <= |ops| ==> AgreesAt(hs, ops, rs, n))
  }

  lemma TraceMore(hs: seq<Heap>, ops: seq<Op>, rs: seq<int>, op: Op, r: int, h': Heap)
    requires Trace(hs, ops, rs) && Serves(hs[|ops|], Replay(ops, rs), op, r, h')
    requires Agrees(h', Expected(Replay(ops, rs), op, r))
    ensures Trace(hs + [h'], ops + [op], rs + [r])
  {
    hide Serves, Agrees, Expected;
    var k, gs, ds, qs := |ops|, hs + [h'], ops + [op], rs + [r];
    assert ds[..k] == ops && qs[..k] == rs;
    forall n | 0 <= n < |ds| ensures ServedAt(gs, ds, qs, n) {
      if n < k { assert ServedAt(hs, ops, rs, n) && ds[..n] == ops[..n] && qs[..n] == rs[..n]; }
    }
    forall n | 0 <= n <= |ds| ensures AgreesAt(gs, ds, qs, n) {
      if n <= k {
        assert AgreesAt(hs, ops, rs, n) && ds[..n] == ops[..n] && qs[..n] == rs[..n];
      } else {
        assert ds[..n] == ds && qs[..n] == qs;
      }
    }
  }

  lemma TraceNow(hs: seq<Heap>, ops: seq<Op>, rs: seq<int>)
    requires Trace(hs, ops, rs)
    ensures |hs| == |ops| + 1 && |rs| == |ops| && Agrees(hs[|ops|], Replay(ops, rs))
  {
    assert AgreesAt(hs, ops, rs, |ops|);
    assert ops[..|ops|] == ops && rs[..|ops|] == rs;
    hide Agrees, Replay;
  }

  lemma TraceTurn(hs: seq<Heap>, ops: seq<Op>, n: nat, rs: seq<int>, r: int, h': Heap)
    requires n < |ops| && Trace(hs, ops[..n], rs) && |hs| == n + 1 && |rs| == n
    requires Serves(hs[n], Replay(ops[..n], rs), ops[n], r, h')
    requires Agrees(h', Expected(Replay(ops[..n], rs), ops[n], r))
    ensures Trace(hs + [h'], ops[..n + 1], rs + [r])
    ensures Replay(ops[..n + 1], rs + [r]) == Expected(Replay(ops[..n], rs), ops[n], r)
  {
    hide Serves, Agrees, Expected, Trace;
    TraceMore(hs, ops[..n], rs, ops[n], r, h');
    assert ops[..n + 1] == ops[..n] + [ops[n]];
    assert ops[..n + 1][..n] == ops[..n] && (rs + [r])[..n] == rs;
  }

  /** A read returns what was last written there. */
  lemma ReadsLastWrite(hs: seq<Heap>, ops: seq<Op>, rs: seq<int>, n: nat)
    requires Trace(hs, ops, rs) && n < |ops| && ops[n].Get?
    ensures var c, i, off := Replay(ops[..n], rs[..n]), ops[n].i, ops[n].off;
            i < |c| && off in c[i].written ==> rs[n] == c[i].written[off]
  {
    var c := Replay(ops[..n], rs[..n]);
    assert ServedAt(hs, ops, rs, n) && AgreesAt(hs, ops, rs, n);
    if ops[n].i < |c| { assert Honours(hs[n], c[ops[n].i]); }
  }

  /** The heap gives the block what its user expects of it. */
  ghost predicate Honours(h: Heap, b: Block) {
    && b.p in h.live && b.sz <= WORD_BYTES * Extent(h, b.p)
    && forall off :: off in b.written ==>
         WORD_BYTES * (off + 1) <= b.sz && Within(h, b.p, b.p + off) && Word(h, b.p + off) == b.written[off]
  }

  /** The live pointers are exactly the held blocks, each held once, and all are honoured. */
  ghost predicate Agrees(h: Heap, c: seq<Block>) {
    && (forall i, j :: 0 <= i < j < |c| ==> c[i].p != c[j].p)
    && (forall x :: x in h.live ==> exists i :: 0 <= i < |c| && c[i].p == x)
    && (forall i :: 0 <= i < |c| ==> Honours(h, c[i]))
  }

  lemma KeptBlockHonoured(h: Heap, h': Heap, b: Block)
    requires Honours(h, b) && KeepsBlock(h, h', b.p)
    ensures Honours(h', b)
  {
  }

  lemma AllocateAgrees(h: Heap, h': Heap, c: seq<Block>, p: int, sz: nat)
    requires Inv(h) && Agrees(h, c) && Allocates(h, h', p) && sz <= WORD_BYTES * Extent(h', p)
    ensures Agrees(h', c + [Block(p, sz, map[])])
  {
    hide Inv, Honours, KeepsBlock, Extent, Within;
    var c' := c + [Block(p, sz, map[])];
    NullNotLive(h);
    forall i | 0 <= i < |c'| ensures Honours(h', c'[i]) {
      if i < |c| { HonouredIsLive(h, c[i]); KeptBlockHonoured(h, h', c[i]); } else { NewBlockHonoured(h', p, sz); }
    }
    forall i, j | 0 <= i < j < |c'| ensures c'[i].p != c'[j].p {
      if j == |c| { HonouredIsLive(h, c[i]); }
    }
    forall x | x in h'.live ensures exists i :: 0 <= i < |c'| && c'[i].p == x {
      if x == p { assert c'[|c|].p == x; } else {
        var i :| 0 <= i < |c| && c[i].p == x;
        assert c'[i].p == x;
      }
    }
  }

  lemma HonouredIsLive(h: Heap, b: Block)
    requires Honours(h, b)
    ensures b.p in h.live
  {
  }

  lemma NewBlockHonoured(h: Heap, p: int, sz: nat)
    requires p in h.live && sz <= WORD_BYTES * Extent(h, p)
    ensures Honours(h, Block(p, sz, map[]))
  {
  }

  lemma SameLiveAgrees(h: Heap, h': Heap, c: seq<Block>)
    requires Inv(h) && Agrees(h, c) && h'.live == h.live && KeepsAllBut(h, h', 0)
    ensures Agrees(h', c)
  {
    hide Inv, Honours, KeepsBlock;
    NullNotLive(h);
    forall i | 0 <= i < |c| ensures Honours(h', c[i]) {
      HonouredIsLive(h, c[i]);
      KeptBlockHonoured(h, h', c[i]);
    }
  }

  lemma FreeAgrees(h: Heap, h': Heap, c: seq<Block>, i: nat)
    requires Inv(h) && Agrees(h, c) && i < |c| && Frees(h, h', c[i].p)
    ensures Agrees(h', c[..i] + c[i + 1..])
  {
    hide Inv, Honours, KeepsBlock;
    var c' := c[..i] + c[i + 1..];
    forall j | 0 <= j < |c'| ensures Honours(h', c'[j]) {
      var l := if j < i then j else j + 1;
      HonouredIsLive(h, c[l]);
      KeptBlockHonoured(h, h', c[l]);
    }
    forall x | x in h'.live ensures exists j :: 0 <= j < |c'| && c'[j].p == x {
      var l :| 0 <= l < |c| && c[l].p == x;
      assert c'[if l < i then l else l - 1].p == x;
    }
  }

  lemma WriteAgrees(h: Heap, c: seq<Block>, i: nat, off: nat, v: int)
    requires Inv(h) && Agrees(h, c) && i < |c| && WORD_BYTES * (off + 1) <= c[i].sz
    ensures c[i].p in h.live && Within(h, c[i].p, c[i].p + off)
    ensures Agrees(Write(h, c[i].p, c[i].p + off, v), Expected(c, Put(i, off, v), 0))
  {
    hide Inv, Honours;
    HonouredIsLive(h, c[i]);
    HonouredHasRoom(h, c[i], off);
    var h', c' := Write(h, c[i].p, c[i].p + off, v), Expected(c, Put(i, off, v), 0);
    forall j | 0 <= j < |c'| ensures Honours(h', c'[j]) {
      if j == i {
        WrittenBlockHonoured(h, c[i], off, v);
      } else {
        HonouredIsLive(h, c[j]);
        OtherBlockHonoured(h, c[j], c[i].p, c[i].p + off, v);
      }
    }
    forall x | x in h'.live ensures exists j :: 0 <= j < |c'| && c'[j].p == x {
      var l :| 0 <= l < |c| && c[l].p == x;
      assert c'[l].p == x;
    }
  }

  lemma HonouredHasRoom(h: Heap, b: Block, off: nat)
    requires Honours(h, b) && WORD_BYTES * (off + 1) <= b.sz
    ensures Within(h, b.p, b.p + off)
  {
  }

  lemma WrittenBlockHonoured(h: Heap, b: Block, off: nat, v: int)
    requires Inv(h) && Honours(h, b) && WORD_BYTES * (off + 1) <= b.sz && Within(h, b.p, b.p + off)
    ensures Honours(Write(h, b.p, b.p + off, v), b.(written := b.written[off := v]))
  {
    hide RefLists, PageRefs, FreeLists, Chunks;
    ExtentAfterWrite(h, b.p, b.p, b.p + off, v);
  }

  lemma OtherBlockHonoured(h: Heap, b: Block, x: int, w: int, v: int)
    requires Inv(h) && Honours(h, b) && x in h.live && x != b.p && Within(h, x, w)
    ensures Honours(Write(h, x, w, v), b)
  {
    hide RefLists, PageRefs, FreeLists, Chunks;
    ExtentAfterWrite(h, b.p, x, w, v);
    LiveBlocksDisjoint(h, b.p, x, w);
  }

  /** A write inside a block changes the size of none. */
  lemma ExtentAfterWrite(h: Heap, y: int, x: int, w: int, v: int)
    requires Inv(h) && y in h.live && x in h.live && Within(h, x, w)
    ensures Extent(Write(h, x, w, v), y) == Extent(h, y)
  {
    hide BlockOn, PageOf, BlockType, RefLists, PageRefs, FreeLists;
    if h.live[y] == Big {
      BigHeader(h, y);
      ChunkHeaderApart(h, x, w, Page(y - 1));
    }
  }

  /** Any sequence of requests, writes and reads in held blocks and frees of held blocks, on a
      heap of any size. `rs` are the results of the operations and `hs` the states between them;
      `blocks` are the held blocks at the end. */
  method Session(a: Allocator, ops: seq<Op>) returns (rs: seq<int>, blocks: seq<(int, nat)>, ghost hs: seq<Heap>)
    requires a.Valid() && a.book.live == map[]
    requires forall i :: 0 <= i < |ops| && ops[i].Malloc? ==> ops[i].sz <= LARGEST_REQUEST
    modifies a, a.mem, a.sizebases, a.seg
    ensures a.Valid() && Trace(hs, ops, rs)
    ensures hs[0] == old(a.book) && hs[|ops|] == a.book
    ensures |blocks| == |Replay(ops, rs)|
    ensures forall i :: 0 <= i < |blocks| ==> blocks[i] == (Replay(ops, rs)[i].p, Replay(ops, rs)[i].sz)
  {
    hide Settled, Serves, Expected;
    rs, blocks, hs := [], [], [a.book];
    assert AgreesAt(hs, [], [], 0);
    assert Trace(hs, [], []) && Replay([], []) == [];
    hide Agrees, Trace, Replay;
    var n := 0;
    assert ops[..n] == [];
    while n < |ops|
      invariant 0 <= n <= |ops| && |rs| == n && |hs| == n + 1
      invariant a.Valid() && Trace(hs, ops[..n], rs) && hs[0] == old(a.book) && hs[n] == a.book
      invariant Matches(blocks, Replay(ops[..n], rs))
    {
      TraceNow(hs, ops[..n], rs);
      var r;
      r, blocks := Step(a, ops[n], blocks, Replay(ops[..n], rs));
      TraceTurn(hs, ops, n, rs, r, a.book);
      rs, hs, n := rs + [r], hs + [a.book], n + 1;
    }
    assert ops[..n] == ops;
  }

  ghost predicate Matches(blocks: seq<(int, nat)>, c: seq<Block>) {
    |blocks| == |c| && forall i :: 0 <= i < |blocks| ==> blocks[i] == (c[i].p, c[i].sz)
  }

  method Request(a: Allocator, sz: nat, blocks: seq<(int, nat)>, ghost c: seq<Block>)
    returns (r: int, blocks': seq<(int, nat)>)
    requires a.Valid() && Agrees(a.book, c) && sz <= LARGEST_REQUEST && Matches(blocks, c)
    modifies a, a.mem, a.sizebases, a.seg
    ensures a.Valid() && Serves(old(a.book), c, Malloc(sz), r, a.book)
    ensures Agrees(a.book, Expected(c, Malloc(sz), r)) && Matches(blocks', Expected(c, Malloc(sz), r))
  {
    hide Inv, Honours, Extent, KeepsAllBut, KeepsBlock, ReadyFor;
    ghost var h := a.book;
    SettledParts(h);
    BigPagesHold(sz);
    blocks' := blocks;
    var fate;
    r, fate := a.MmMalloc(sz);
    if r != 0 {
      blocks' := blocks + [(r, sz)];
      AllocateAgrees(h, a.book, c, r, sz);
    } else {
      SameLiveAgrees(h, a.book, c);
    }
  }

  /** One operation of a session. */
  method Step(a: Allocator, op: Op, blocks: seq<(int, nat)>, ghost c: seq<Block>)
    returns (r: int, blocks': seq<(int, nat)>)
    requires a.Valid() && Agrees(a.book, c) && (op.Malloc? ==> op.sz <= LARGEST_REQUEST)
    requires Matches(blocks, c)
    modifies a, a.mem, a.sizebases, a.seg
    ensures a.Valid() && Serves(old(a.book), c, op, r, a.book)
    ensures Agrees(a.book, Expected(c, op, r)) && Matches(blocks', Expected(c, op, r))
  {
    hide Inv, Honours, Write, Extent, KeepsAllBut, KeepsBlock;
    ghost var h := a.book;
    SettledParts(h);
    r, blocks' := 0, blocks;
    match op {
    case Malloc(sz) => r, blocks' := Request(a, sz, blocks, c);
    case Free(i) =>
      if i < |blocks| {
        HonouredIsLive(h, c[i]);
        NullNotLive(h);
        a.MmFree(blocks[i].0);
        blocks' := blocks[..i] + blocks[i + 1..];
        FreeAgrees(h, a.book, c, i);
      }
    case Put(i, off, v) =>
      if i < |blocks| && WORD_BYTES * (off + 1) <= blocks[i].1 {
        WriteAgrees(h, c, i, off, v);
        a.Store(c[i].p, blocks[i].0 + off, v);
      }
    case Get(i, off) =>
      if i < |blocks| && WORD_BYTES * (off + 1) <= blocks[i].1 {
        HonouredIsLive(h, c[i]);
        HonouredHasRoom(h, c[i], off);
        r := a.Load(c[i].p, blocks[i].0 + off);
      }
    }
  }
}
