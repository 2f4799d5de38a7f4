/** Whole runs of the superblock allocator: any requests of at most 128 bytes on any
    processors and any frees of held blocks, in any order. */
module ArenaSession {
  import opened PageLayout
  import opened ArenaState
  import opened ArenaSafety
  import opened ArenaCalls
  import opened ArenaReturns
  import opened A2Alloc

  datatype Op = Malloc(sz: nat, cpu: nat) | Free(j: nat)

  /** A block as its user holds it. */
  datatype Held = Held(addr: int, sz: nat)

  /** The superblock state and the first address that the segment has not yet handed out. */
  datatype Moment = Moment(book: Arena, hi: int)

  /** The blocks held after `ops`, if `rs` are the addresses that the requests returned. */
  ghost function Replay(ops: seq<Op>, rs: seq<int>): seq<Held>
    requires |rs| == |ops|
  {
    if ops == [] then [] else Expected(Replay(ops[..|ops| - 1], rs[..|ops| - 1]), ops[|ops| - 1], rs[|ops| - 1])
  }

  ghost function Expected(c: seq<Held>, op: Op, r: int): seq<Held> {
    match op
    case Malloc(sz, cpu) => if r == 0 then c else c + [Held(r, sz)]
    case Free(j) => if j < |c| then c[..j] + c[j + 1..] else c
  }

  /** The smallest class of blocks that hold `sz` bytes. */
  ghost function ClassFor(sz: nat): (c: nat)
    requires sz <= LARGEST_SMALL
    ensures c < SMALL_CLASSES && sz <= SizeOf(c) && forall j: nat :: j < c ==> SizeOf(j) < sz
  {
    if sz <= 8 then 0 else if sz <= 16 then 1 else if sz <= 32 then 2 else if sz <= 64 then 3 else 4
  }

  lemma SmallestClass(sz: nat, c: nat)
    requires sz <= LARGEST_SMALL && c < SMALL_CLASSES && sz <= SizeOf(c) && forall j: nat :: j < c ==> SizeOf(j) < sz
    ensures c == ClassFor(sz)
  {
  }

  /** Block `(p, i)` is live and at address `addr`. */
  ghost predicate LiveAt(a: Arena, addr: int, p: int, i: nat) {
    (p, i) in a.live && p in a.sb && a.sb[p].cls < SMALL_CLASSES && addr == Address(p, a.sb[p].cls, i)
  }

  /** A request that is served gets a block that was not live, of the smallest class that fits,
      in a superblock of the processor's heap, which was there before if it had space. */
  ghost predicate Hands(s: Arena, sz: nat, cpu: nat, addr: int, t: Arena, p: int, i: nat)
    requires sz <= LARGEST_SMALL
  {
    && LiveAt(t, addr, p, i) && (p, i) !in s.live && t.live == s.live + {(p, i)}
    && t.sb[p].cls == ClassFor(sz) && t.sb[p].heap == cpu + 1
    && Reserved(ClassFor(sz)) <= i < Total(ClassFor(sz))
    && ServedFrom(s, cpu + 1, ClassFor(sz), p) && OnlyTouches(s, t, p) && KeepsClasses(s, t)
  }

  /** How `op` is carried out for the holder of the blocks `c` on a segment that ends at `end`.
      A request is refused only when the segment has no page left and no superblock has space. */
  ghost predicate Serves(s: Moment, c: seq<Held>, op: Op, r: int, t: Moment, end: int) {
    match op
    case Malloc(sz, cpu) =>
      && sz <= LARGEST_SMALL
      && (if r != 0 then exists p: int, i: nat :: Hands(s.book, sz, cpu, r, t.book, p, i)
          else t == s && s.hi + SB_SIZE > end)
      && (MayServe(s.book, cpu + 1, ClassFor(sz)) ==> r != 0 && t.hi == s.hi)
    case Free(j) =>
      && r == 0
      && (if j < |c|
          then t.hi == s.hi && exists p: int, i: nat, q: int :: LiveAt(s.book, c[j].addr, p, i) && Frees(s.book, p, i, q, t.book) && GivesBack(s.book, p, q, t.book)
          else t == s)
  }

  ghost predicate HeldOk(a: Arena, b: Held) {
    exists p: int, i: nat :: LiveAt(a, b.addr, p, i) && b.sz <= SizeOf(a.sb[p].cls)
  }

  /** The held blocks are exactly the live blocks, each held once. */
  ghost predicate Agrees(a: Arena, held: seq<Held>) {
    && (forall j :: 0 <= j < |held| ==> HeldOk(a, held[j]))
    && (forall j, k :: 0 <= j < k < |held| ==> held[j].addr != held[k].addr)
    && (forall p: int, i: nat, addr: int {:trigger LiveAt(a, addr, p, i)} :: LiveAt(a, addr, p, i) ==> exists j :: 0 <= j < |held| && held[j].addr == addr)
  }

  /** An address is that of one block only. */
  lemma OneBlock(a: Arena, addr: int, p: int, i: nat, q: int, j: nat)
    requires Inv(a) && LiveAt(a, addr, p, i) && LiveAt(a, addr, q, j)
    ensures p == q && i == j
  {
    LiveBlockIndex(a, p, i);
    LiveBlockIndex(a, q, j);
    hide Inv, Address, Total, SizeOf;
    AddressRoundTrip(p, a.sb[p].cls, i);
    AddressRoundTrip(q, a.sb[q].cls, j);
  }

  /** Blocks of different holders share no byte, and none touches a superblock header. */
  lemma HeldBlocksPrivate(a: Arena, held: seq<Held>, j: nat, k: nat, x: int)
    requires Inv(a) && Agrees(a, held) && j < |held| && k < |held| && j != k
    requires held[j].addr <= x < held[j].addr + held[j].sz
    ensures !(held[k].addr <= x < held[k].addr + held[k].sz)
    ensures forall p :: p in a.sb ==> !(SB_SIZE * p <= x < SB_SIZE * p + HEADER_BYTES)
  {
    var b, d := held[j], held[k];
    assert HeldOk(a, b) && HeldOk(a, d) && b.addr != d.addr;
    var p: int, i: nat :| LiveAt(a, b.addr, p, i) && b.sz <= SizeOf(a.sb[p].cls);
    var q: int, l: nat :| LiveAt(a, d.addr, q, l) && d.sz <= SizeOf(a.sb[q].cls);
    hide *;
    LiveAtPrivate(a, b, d, p, i, q, l, x);
  }

  lemma LiveAtPrivate(a: Arena, b: Held, d: Held, p: int, i: nat, q: int, l: nat, x: int)
    requires Inv(a) && b.addr != d.addr && b.addr <= x < b.addr + b.sz
    requires LiveAt(a, b.addr, p, i) && b.sz <= SizeOf(a.sb[p].cls)
    requires LiveAt(a, d.addr, q, l) && d.sz <= SizeOf(a.sb[q].cls)
    ensures !(d.addr <= x < d.addr + d.sz)
    ensures forall r :: r in a.sb ==> !(SB_SIZE * r <= x < SB_SIZE * r + HEADER_BYTES)
  {
    hide Inv, SizeOf, Address;
    LiveBlocksPrivate(a, p, i, q, l, x);
  }

  lemma KeptLive(a: Arena, t: Arena, addr: int, p: int, i: nat)
    requires LiveAt(a, addr, p, i) && KeepsClasses(a, t) && (p, i) in t.live
    ensures LiveAt(t, addr, p, i) && t.sb[p].cls == a.sb[p].cls
  {
  }

  lemma MallocAgrees(a: Arena, t: Arena, held: seq<Held>, sz: nat, cpu: nat, addr: int, p: int, i: nat)
    requires Inv(a) && Inv(t) && Agrees(a, held) && sz <= LARGEST_SMALL && Hands(a, sz, cpu, addr, t, p, i)
    ensures Agrees(t, held + [Held(addr, sz)])
  {
    hide Inv, Address, Reserved, Total, SizeOf, ClassFor, ServedFrom, OnlyTouches;
    var held' := held + [Held(addr, sz)];
    forall j | 0 <= j < |held'| ensures HeldOk(t, held'[j]) && (j < |held| ==> held[j].addr != addr) {
      if j < |held| {
        assert HeldOk(a, held[j]);
        var q: int, l: nat :| LiveAt(a, held[j].addr, q, l) && held[j].sz <= SizeOf(a.sb[q].cls);
        KeptLive(a, t, held[j].addr, q, l);
        if held[j].addr == addr { OneBlock(t, addr, p, i, q, l); }
      }
    }
    LiveAfterMalloc(a, t, addr, p, i, held, held');
  }

  lemma LiveAfterMalloc(a: Arena, t: Arena, addr: int, p: int, i: nat, held: seq<Held>, held': seq<Held>)
    requires Inv(a) && Agrees(a, held) && KeepsClasses(a, t) && LiveAt(t, addr, p, i) && t.live == a.live + {(p, i)}
    requires |held'| == |held| + 1 && held'[..|held|] == held && held'[|held|].addr == addr
    ensures forall q: int, l: nat, at: int {:trigger LiveAt(t, at, q, l)} ::
              LiveAt(t, at, q, l) ==> exists j :: 0 <= j < |held'| && held'[j].addr == at
  {
    forall q: int, l: nat, at: int {:trigger LiveAt(t, at, q, l)} | LiveAt(t, at, q, l)
      ensures exists j :: 0 <= j < |held'| && held'[j].addr == at
    {
      if (q, l) in a.live {
        LiveBlockIndex(a, q, l);
        hide Inv, Address;
        assert LiveAt(a, at, q, l);
        var j :| 0 <= j < |held| && held[j].addr == at;
        assert held'[j] == held[j];
      } else {
        assert held'[|held|].addr == at;
      }
    }
  }

  lemma FreeAgrees(a: Arena, t: Arena, held: seq<Held>, k: nat, p: int, i: nat)
    requires Inv(a) && Agrees(a, held) && KeepsClasses(a, t) && k < |held|
    requires LiveAt(a, held[k].addr, p, i) && t.live == a.live - {(p, i)}
    ensures Agrees(t, held[..k] + held[k + 1..])
  {
    hide Inv, Address, SizeOf;
    var held' := held[..k] + held[k + 1..];
    forall j | 0 <= j < |held'| ensures HeldOk(t, held'[j]) {
      var l := if j < k then j else j + 1;
      assert HeldOk(a, held[l]) && held[l].addr != held[k].addr;
      var q: int, m: nat :| LiveAt(a, held[l].addr, q, m) && held[l].sz <= SizeOf(a.sb[q].cls);
      assert (q, m) != (p, i);
      KeptLive(a, t, held[l].addr, q, m);
    }
    LiveAfterFree(a, t, held, k, p, i);
  }

  lemma LiveAfterFree(a: Arena, t: Arena, held: seq<Held>, k: nat, p: int, i: nat)
    requires Inv(a) && Agrees(a, held) && KeepsClasses(a, t) && k < |held|
    requires LiveAt(a, held[k].addr, p, i) && t.live == a.live - {(p, i)}
    ensures var held' := held[..k] + held[k + 1..];
            forall q: int, l: nat, at: int {:trigger LiveAt(t, at, q, l)} ::
              LiveAt(t, at, q, l) ==> exists j :: 0 <= j < |held'| && held'[j].addr == at
  {
    var held' := held[..k] + held[k + 1..];
    forall q: int, l: nat, at: int {:trigger LiveAt(t, at, q, l)} | LiveAt(t, at, q, l)
      ensures exists j :: 0 <= j < |held'| && held'[j].addr == at
    {
      LiveBefore(a, t, held, p, i, at, q, l);
      var m :| 0 <= m < |held| && held[m].addr == at;
      hide *;
      if m == k { OneBlock(a, at, p, i, q, l); }
      assert held'[if m < k then m else m - 1] == held[m];
    }
  }

  lemma LiveBefore(a: Arena, t: Arena, held: seq<Held>, p: int, i: nat, at: int, q: int, l: nat)
    requires Inv(a) && Agrees(a, held) && KeepsClasses(a, t) && t.live == a.live - {(p, i)} && LiveAt(t, at, q, l)
    ensures LiveAt(a, at, q, l) && (q, l) != (p, i) && exists m :: 0 <= m < |held| && held[m].addr == at
  {
    LiveBlockIndex(a, q, l);
    hide Inv, Address;
    assert (q, l) in a.live;
    assert LiveAt(a, at, q, l);
  }

  // ------------------------------------------------------------ runs

  ghost predicate ServedAt(ms: seq<Moment>, ops: seq<Op>, rs: seq<int>, end: int, n: int)
    requires |ms| == |ops| + 1 && |rs| == |ops| && 0 <= n < |ops|
  {
    Serves(ms[n], Replay(ops[..n], rs[..n]), ops[n], rs[n], ms[n + 1], end)
  }

  ghost predicate AgreesAt(ms: seq<Moment>, ops: seq<Op>, rs: seq<int>, n: int)
    requires |ms| == |ops| + 1 && |rs| == |ops| && 0 <= n <= |ops|
  {
    Settled(ms[n].book) && Agrees(ms[n].book, Replay(ops[..n], rs[..n]))
  }

  /** The moments `ms` between the operations, on a segment that ends at `end`. */
  ghost predicate Trace(ms: seq<Moment>, ops: seq<Op>, rs: seq<int>, end: int) {
    && |ms| == |ops| + 1 && |rs| == |ops|
    && (forall n {:trigger ServedAt(ms, ops, rs, end, n)} :: 0 <= n < |ops| ==> ServedAt(ms, ops, rs, end, n))
    && (forall n {:trigger AgreesAt(ms, ops, rs, n)} :: 0 <= n <= |ops| ==> AgreesAt(ms, ops, rs, n))
  }

  lemma TraceMore(ms: seq<Moment>, ops: seq<Op>, rs: seq<int>, end: int, op: Op, r: int, t: Moment)
    requires Trace(ms, ops, rs, end) && Serves(ms[|ops|], Replay(ops, rs), op, r, t, end)
    requires Settled(t.book) && Agrees(t.book, Expected(Replay(ops, rs), op, r))
    ensures Trace(ms + [t], ops + [op], rs + [r], end)
  {
    hide Serves, Agrees, Expected, Settled;
    var k, gs, ds, qs := |ops|, ms + [t], ops + [op], rs + [r];
    assert ds[..k] == ops && qs[..k] == rs;
    forall n | 0 <= n < |ds| ensures ServedAt(gs, ds, qs, end, n) {
      if n < k { assert ServedAt(ms, ops, rs, end, n) && ds[..n] == ops[..n] && qs[..n] == rs[..n]; }
    }
    forall n | 0 <= n <= |ds| ensures AgreesAt(gs, ds, qs, n) {
      if n <= k {
        assert AgreesAt(ms, ops, rs, n) && ds[..n] == ops[..n] && qs[..n] == rs[..n];
      } else {
        assert ds[..n] == ds && qs[..n] == qs;
      }
    }
  }

  /** Any run: `rs` are the results of the operations, `ms` the moments between them and `held`
      the blocks held at the end. */
  method Session(a: Allocator, ops: seq<Op>) returns (rs: seq<int>, held: seq<Held>, ghost ms: seq<Moment>)
    requires a.Valid() && a.book.live == {}
    requires forall n :: 0 <= n < |ops| && ops[n].Malloc? ==> ops[n].sz <= LARGEST_SMALL && ops[n].cpu + 1 < a.used.Length
    modifies a, a.space, a.used, a.binFirst, a.seg`dsegHi, a.table.Values
    ensures a.Valid() && Trace(ms, ops, rs, a.seg.dsegLo + a.seg.dsegSize)
    ensures ms[0] == Moment(old(a.book), old(a.seg.dsegHi) + 1) && ms[|ops|] == Moment(a.book, a.seg.dsegHi + 1)
    ensures held == Replay(ops, rs)
  {
    hide Settled, HeadersOk, HeadsOk, PagesObtained, Serves, Frees, Expected;
    ghost var end := a.seg.dsegLo + a.seg.dsegSize;
    rs, held, ms := [], [], [Moment(a.book, a.seg.dsegHi + 1)];
    assert Agrees(a.book, []);
    assert AgreesAt(ms, [], [], 0);
    hide Agrees;
    var n := 0;
    while n < |ops|
      invariant 0 <= n <= |ops| && |rs| == n && |ms| == n + 1
      invariant a.Valid() && Trace(ms, ops[..n], rs, end)
      invariant ms[0] == Moment(old(a.book), old(a.seg.dsegHi) + 1) && ms[n] == Moment(a.book, a.seg.dsegHi + 1)
      invariant held == Replay(ops[..n], rs)
      invariant fresh(a.table.Values - old(a.table.Values))
    {
      assert AgreesAt(ms, ops[..n], rs, n) && ops[..n][..n] == ops[..n] && rs[..n] == rs;
      var r;
      r, held := Step(a, ops[n], held);
      ghost var t := Moment(a.book, a.seg.dsegHi + 1);
      TraceMore(ms, ops[..n], rs, end, ops[n], r, t);
      assert ops[..n + 1] == ops[..n] + [ops[n]];
      assert ops[..n + 1][..n] == ops[..n] && (rs + [r])[..n] == rs;
      rs, ms, n := rs + [r], ms + [t], n + 1;
    }
    assert ops[..n] == ops;
  }

  method Step(a: Allocator, op: Op, held: seq<Held>) returns (r: int, held': seq<Held>)
    requires a.Valid() && Agrees(a.book, held)
    requires op.Malloc? ==> op.sz <= LARGEST_SMALL && op.cpu + 1 < a.used.Length
    modifies a, a.space, a.used, a.binFirst, a.seg`dsegHi, a.table.Values
    ensures a.Valid() && held' == Expected(held, op, r) && Agrees(a.book, held')
    ensures Serves(Moment(old(a.book), old(a.seg.dsegHi) + 1), held, op, r, Moment(a.book, a.seg.dsegHi + 1),
              a.seg.dsegLo + a.seg.dsegSize)
    ensures fresh(a.table.Values - old(a.table.Values))
  {
    hide HeadersOk, HeadsOk, PagesObtained, Agrees, LiveAt, Hands, Inv, Serves;
    r, held' := 0, held;
    match op {
      case Malloc(sz, cpu) => r, held' := Request(a, sz, cpu, held);
      case Free(j) => held' := Release(a, j, held);
    }
  }

  method Request(a: Allocator, sz: nat, cpu: nat, held: seq<Held>) returns (r: int, held': seq<Held>)
    requires a.Valid() && Agrees(a.book, held) && sz <= LARGEST_SMALL && cpu + 1 < a.used.Length
    modifies a, a.space, a.used, a.binFirst, a.seg`dsegHi, a.table.Values
    ensures a.Valid() && held' == Expected(held, Malloc(sz, cpu), r) && Agrees(a.book, held')
    ensures Serves(Moment(old(a.book), old(a.seg.dsegHi) + 1), held, Malloc(sz, cpu), r, Moment(a.book, a.seg.dsegHi + 1),
              a.seg.dsegLo + a.seg.dsegSize)
    ensures fresh(a.table.Values - old(a.table.Values))
  {
    hide HeadersOk, HeadsOk, PagesObtained, Agrees, Inv, SizeOf, Address, Reserved, Total, ClassFor, MayServe, KeepsClasses, ServedFrom, OnlyTouches;
    ghost var before := a.book;
    ghost var p, i, c;
    r, p, i, c := a.MmMalloc(sz, cpu);
    SmallestClass(sz, c);
    held' := held;
    if r != 0 {
      assert Hands(before, sz, cpu, r, a.book, p, i);
      held' := held + [Held(r, sz)];
      MallocAgrees(before, a.book, held, sz, cpu, r, p, i);
    }
  }

  method Release(a: Allocator, j: nat, held: seq<Held>) returns (held': seq<Held>)
    requires a.Valid() && Agrees(a.book, held)
    modifies a`book, a.space, a.used, a.binFirst, a.table.Values
    ensures a.Valid() && held' == Expected(held, Free(j), 0) && Agrees(a.book, held')
    ensures Serves(Moment(old(a.book), old(a.seg.dsegHi) + 1), held, Free(j), 0, Moment(a.book, a.seg.dsegHi + 1),
              a.seg.dsegLo + a.seg.dsegSize)
  {
    hide HeadersOk, HeadsOk, PagesObtained, Inv, SizeOf, Address, Frees, KeepsClasses, GivesBack;
    ghost var before := a.book;
    held' := held;
    if j < |held| {
      assert HeldOk(before, held[j]);
      ghost var p: int, i: nat :| LiveAt(before, held[j].addr, p, i);
      ghost var q := a.MmFree(held[j].addr, p, i);
      held' := held[..j] + held[j + 1..];
      FreeAgrees(before, a.book, held, j, p, i);
    }
  }
}
